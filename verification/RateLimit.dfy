/**
 * Sliding-window rate limits over a table of accepted events, pruned on every accepted call. Times
 * are microseconds, windows seconds.
 */
module RateLimit {
  import opened Wrappers
  import opened Tables

  const MICROS := 1_000_000

  datatype Window = Window(seconds: nat, limit: nat)

  datatype ActionLimits = ActionLimits(perUser: seq<Window>, global: seq<Window>)

  type Limits = map<string, ActionLimits>

  const LIMITS: Limits := map[
    "faucet" := ActionLimits([Window(30, 1), Window(3600, 5), Window(86400, 15)],
      [Window(3600, 40), Window(86400, 200)]),
    "withdrawal" := ActionLimits([Window(30, 1), Window(3600, 10), Window(86400, 30)],
      [Window(3600, 60), Window(86400, 300)]),
    "nft_withdrawal" := ActionLimits([Window(30, 1), Window(3600, 10), Window(86400, 30)],
      [Window(3600, 60), Window(86400, 300)]),
    "nft_mint" := ActionLimits([], [Window(3600, 20), Window(86400, 100)])
  ]

  datatype Reply = Allowed | UserLimited(broken: Window) | GlobalLimited(broken: Window)

  // ---- counting -----------------------------------------------------------------------------

  function Count(events: seq<RateLimitEvent>, p: RateLimitEvent -> bool): nat {
    if events == [] then 0
    else Count(events[..|events| - 1], p) + if p(events[|events| - 1]) then 1 else 0
  }

  /** The events of an action at or after `since`, of one user or of all. */
  function Since(action: string, since: int, user: Option<nat>): RateLimitEvent -> bool {
    (e: RateLimitEvent) => e.action == action && e.at >= since && (user.None? || e.user == user.value)
  }

  function CountEvents(events: seq<RateLimitEvent>, action: string, since: int, user: Option<nat>): nat {
    Count(events, Since(action, since, user))
  }

  // ---- the limiter --------------------------------------------------------------------------

  predicate Full(events: seq<RateLimitEvent>, w: Window, action: string, now: int, user: Option<nat>) {
    CountEvents(events, action, now - w.seconds * MICROS, user) >= w.limit
  }

  /** The first window of the list that has no room left. */
  function FirstFull(events: seq<RateLimitEvent>, windows: seq<Window>, action: string, now: int, user: Option<nat>)
    : (r: Option<Window>)
    ensures r.None? <==> forall k :: 0 <= k < |windows| ==> !Full(events, windows[k], action, now, user)
  {
    if windows == [] then None
    else
      var front := FirstFull(events, windows[..|windows| - 1], action, now, user);
      if front.Some? then front
      else if Full(events, windows[|windows| - 1], action, now, user) then Some(windows[|windows| - 1])
      else None
  }

  function Decide(events: seq<RateLimitEvent>, limits: ActionLimits, action: string, user: nat, now: int): Reply {
    match FirstFull(events, limits.perUser, action, now, Some(user))
    case Some(w) => UserLimited(w)
    case None =>
      match FirstFull(events, limits.global, action, now, None)
      case Some(w) => GlobalLimited(w)
      case None => Allowed
  }

  function Longest(windows: seq<Window>): nat {
    if windows == [] then 0
    else
      var front, last := Longest(windows[..|windows| - 1]), windows[|windows| - 1].seconds;
      if front >= last then front else last
  }

  function Pruned(events: seq<RateLimitEvent>, action: string, before: int): seq<RateLimitEvent> {
    if events == [] then [] else
      var front, e := Pruned(events[..|events| - 1], action, before), events[|events| - 1];
      if e.action == action && e.at < before then front else front + [e]
  }

  /** The table after an accepted call: the event is added and what no window reaches is deleted. */
  function Recorded(events: seq<RateLimitEvent>, limits: ActionLimits, action: string, user: nat, now: int)
    : seq<RateLimitEvent>
  {
    var added := events + [RateLimitEvent(user, action, now)];
    var windows := limits.perUser + limits.global;
    if windows == [] then added else Pruned(added, action, now - Longest(windows) * MICROS)
  }

  function Enforce(events: seq<RateLimitEvent>, limits: Limits, enabled: bool, action: string, user: nat, now: int)
    : (seq<RateLimitEvent>, Reply)
  {
    if !enabled || action !in limits then (events, Allowed)
    else
      var reply := Decide(events, limits[action], action, user, now);
      (if reply.Allowed? then Recorded(events, limits[action], action, user, now) else events, reply)
  }

  method EnforceRateLimit(session: Session, limits: Limits, enabled: bool, action: string, user: nat, now: int)
    returns (reply: Reply)
    modifies session`events
    ensures (session.events, reply) == Enforce(old(session.events), limits, enabled, action, user, now)
  {
    hide Count, Pruned, Longest;
    if !enabled || action !in limits {
      return Allowed;
    }
    var l := limits[action];
    for k := 0 to |l.perUser|
      invariant session.events == old(session.events)
      invariant FirstFull(session.events, l.perUser[..k], action, now, Some(user)).None?
    {
      var w := l.perUser[k];
      assert l.perUser[..k + 1][..k] == l.perUser[..k];
      var count := CountEvents(session.events, action, now - w.seconds * MICROS, Some(user));
      if count >= w.limit {
        FirstFullFound(session.events, l.perUser, k, action, now, Some(user));
        return UserLimited(w);
      }
    }
    assert l.perUser[..|l.perUser|] == l.perUser;
    for k := 0 to |l.global|
      invariant session.events == old(session.events)
      invariant FirstFull(session.events, l.global[..k], action, now, None).None?
    {
      var w := l.global[k];
      assert l.global[..k + 1][..k] == l.global[..k];
      var count := CountEvents(session.events, action, now - w.seconds * MICROS, None);
      if count >= w.limit {
        FirstFullFound(session.events, l.global, k, action, now, None);
        return GlobalLimited(w);
      }
    }
    assert l.global[..|l.global|] == l.global;
    session.events := session.events + [RateLimitEvent(user, action, now)];
    var windows := l.perUser + l.global;
    if windows != [] {
      session.events := Pruned(session.events, action, now - Longest(windows) * MICROS);
    }
    return Allowed;
  }

  lemma {:induction false} FirstFullFound(events: seq<RateLimitEvent>, windows: seq<Window>, k: nat, action: string,
                                          now: int, user: Option<nat>)
    requires k < |windows| && Full(events, windows[k], action, now, user)
    requires FirstFull(events, windows[..k], action, now, user).None?
    ensures FirstFull(events, windows, action, now, user) == Some(windows[k])
    decreases |windows|
  {
    var front := windows[..|windows| - 1];
    if k < |front| {
      assert front[..k] == windows[..k];
      FirstFullFound(events, front, k, action, now, user);
    } else {
      assert front == windows[..k];
    }
  }

  // ---- counting lemmas ----------------------------------------------------------------------

  lemma {:induction false} CountMonotone(events: seq<RateLimitEvent>, p: RateLimitEvent -> bool,
                                         q: RateLimitEvent -> bool)
    requires forall e :: e in events && p(e) ==> q(e)
    ensures Count(events, p) <= Count(events, q)
    decreases |events|
  {
    if events == [] {
    } else {
      CountMonotone(events[..|events| - 1], p, q);
    }
  }

  lemma CountAppend(events: seq<RateLimitEvent>, e: RateLimitEvent, p: RateLimitEvent -> bool)
    ensures Count(events + [e], p) == Count(events, p) + if p(e) then 1 else 0
  {
    assert (events + [e])[..|events|] == events;
  }

  /** Pruning deletes nothing that a count reaching no further back can see. */
  lemma {:induction false} PrunedCount(events: seq<RateLimitEvent>, action: string, before: int, other: string,
                                       since: int, user: Option<nat>)
    requires other == action ==> since >= before
    ensures CountEvents(Pruned(events, action, before), other, since, user) == CountEvents(events, other, since, user)
    decreases |events|
  {
    if events == [] {
    } else {
      var e := events[|events| - 1];
      PrunedCount(events[..|events| - 1], action, before, other, since, user);
      CountAppend(Pruned(events[..|events| - 1], action, before), e, Since(other, since, user));
    }
  }

  lemma {:induction false} LongestBounds(windows: seq<Window>)
    ensures forall w :: w in windows ==> w.seconds <= Longest(windows)
    decreases |windows|
  {
    if windows == [] {
    } else {
      LongestBounds(windows[..|windows| - 1]);
      assert windows == windows[..|windows| - 1] + [windows[|windows| - 1]];
    }
  }

  // ---- one call -----------------------------------------------------------------------------

  /** The rows a count is about. */
  function Matching(events: seq<RateLimitEvent>, action: string, since: int, user: Option<nat>): set<nat> {
    set i: nat | i < |events| && events[i].action == action && events[i].at >= since
                 && (user.None? || events[i].user == user.value)
  }

  lemma MatchingAppend(events: seq<RateLimitEvent>, e: RateLimitEvent, action: string, since: int, user: Option<nat>)
    ensures Matching(events + [e], action, since, user) ==
      Matching(events, action, since, user) + (if Since(action, since, user)(e) then {|events|} else {})
  {
  }

  lemma {:induction false} CountIsSize(events: seq<RateLimitEvent>, action: string, since: int, user: Option<nat>)
    ensures CountEvents(events, action, since, user) == |Matching(events, action, since, user)|
    decreases |events|
  {
    if events == [] {
    } else {
      var front, e := events[..|events| - 1], events[|events| - 1];
      CountIsSize(front, action, since, user);
      FrontAndLast(events);
      MatchingAppend(front, e, action, since, user);
    }
  }

  /** The window has room for one call more. */
  predicate HasRoom(events: seq<RateLimitEvent>, w: Window, action: string, now: int, user: Option<nat>) {
    |Matching(events, action, now - w.seconds * MICROS, user)| < w.limit
  }

  predicate AllHaveRoom(events: seq<RateLimitEvent>, windows: seq<Window>, action: string, now: int,
                        user: Option<nat>) {
    forall k :: 0 <= k < |windows| ==> HasRoom(events, windows[k], action, now, user)
  }

  /** `w` is the first window without room. */
  ghost predicate FirstWithout(events: seq<RateLimitEvent>, windows: seq<Window>, action: string, now: int,
                               user: Option<nat>, w: Window) {
    exists k :: 0 <= k < |windows| && w == windows[k] && !HasRoom(events, w, action, now, user)
      && AllHaveRoom(events, windows[..k], action, now, user)
  }

  lemma FullExactly(events: seq<RateLimitEvent>, w: Window, action: string, now: int, user: Option<nat>)
    ensures Full(events, w, action, now, user) <==> !HasRoom(events, w, action, now, user)
  {
    CountIsSize(events, action, now - w.seconds * MICROS, user);
  }

  lemma FirstStaysFirst(events: seq<RateLimitEvent>, windows: seq<Window>, last: Window, action: string, now: int,
                        user: Option<nat>, w: Window)
    requires FirstWithout(events, windows, action, now, user, w)
    ensures FirstWithout(events, windows + [last], action, now, user, w)
  {
    hide HasRoom, AllHaveRoom;
    var k :| 0 <= k < |windows| && w == windows[k] && !HasRoom(events, w, action, now, user)
      && AllHaveRoom(events, windows[..k], action, now, user);
    assert (windows + [last])[k] == w && (windows + [last])[..k] == windows[..k];
  }

  lemma OneMoreWindow(events: seq<RateLimitEvent>, windows: seq<Window>, last: Window, action: string, now: int,
                      user: Option<nat>)
    requires AllHaveRoom(events, windows, action, now, user)
    ensures if HasRoom(events, last, action, now, user) then AllHaveRoom(events, windows + [last], action, now, user)
      else FirstWithout(events, windows + [last], action, now, user, last)
  {
    hide HasRoom;
    assert (windows + [last])[|windows|] == last && (windows + [last])[..|windows|] == windows;
  }

  lemma {:induction false} FirstFullExactly(events: seq<RateLimitEvent>, windows: seq<Window>, action: string, now: int,
                                            user: Option<nat>)
    ensures match FirstFull(events, windows, action, now, user)
      case None => AllHaveRoom(events, windows, action, now, user)
      case Some(w) => FirstWithout(events, windows, action, now, user, w)
    decreases |windows|
  {
    if windows == [] {
      return;
    }
    var front, last := windows[..|windows| - 1], windows[|windows| - 1];
    FirstFullExactly(events, front, action, now, user);
    FullExactly(events, last, action, now, user);
    hide Full, HasRoom, AllHaveRoom, FirstWithout;
    FrontAndLast(windows);
    match FirstFull(events, front, action, now, user)
    case Some(w) => FirstStaysFirst(events, front, last, action, now, user, w);
    case None => OneMoreWindow(events, front, last, action, now, user);
  }

  /**
   * A call is let through exactly if every window has room, its user's and the global ones; otherwise the first
   * window without room is reported, the user's before the global ones. Without a limit nothing is counted.
   */
  lemma ReplyExactly(events: seq<RateLimitEvent>, limits: Limits, enabled: bool, action: string, user: nat, now: int)
    ensures var (after, reply) := Enforce(events, limits, enabled, action, user, now);
      if !enabled || action !in limits then reply.Allowed? && after == events
      else
        && RepliesTo(events, limits[action], action, user, now, reply)
        && (!reply.Allowed? ==> after == events)
  {
    if enabled && action in limits {
      hide AllHaveRoom, FirstWithout, FirstFull;
      FirstFullExactly(events, limits[action].perUser, action, now, Some(user));
      FirstFullExactly(events, limits[action].global, action, now, None);
    }
  }

  ghost predicate RepliesTo(events: seq<RateLimitEvent>, l: ActionLimits, action: string, user: nat, now: int,
                            reply: Reply) {
    match reply
    case Allowed =>
      AllHaveRoom(events, l.perUser, action, now, Some(user)) && AllHaveRoom(events, l.global, action, now, None)
    case UserLimited(w) => FirstWithout(events, l.perUser, action, now, Some(user), w)
    case GlobalLimited(w) =>
      AllHaveRoom(events, l.perUser, action, now, Some(user)) && FirstWithout(events, l.global, action, now, None, w)
  }

  /** Some window of the action still reaches the event. */
  predicate Reached(e: RateLimitEvent, l: ActionLimits, action: string, now: int) {
    || e.action != action || l.perUser + l.global == []
    || exists w :: w in l.perUser + l.global && e.at >= now - w.seconds * MICROS
  }

  predicate Attained(windows: seq<Window>, seconds: nat) {
    exists w :: w in windows && w.seconds == seconds
  }

  lemma {:induction false} LongestIsOne(windows: seq<Window>)
    requires windows != []
    ensures Attained(windows, Longest(windows))
    decreases |windows|
  {
    var front, last := windows[..|windows| - 1], windows[|windows| - 1];
    FrontAndLast(windows);
    if front != [] && Longest(front) >= last.seconds {
      LongestIsOne(front);
      var w :| w in front && w.seconds == Longest(front);
      assert w in windows;
    } else {
      assert last in windows && Longest(windows) == last.seconds;
    }
  }

  lemma {:induction false} PrunedExactly(events: seq<RateLimitEvent>, action: string, before: int, e: RateLimitEvent)
    ensures e in Pruned(events, action, before) <==> e in events && !(e.action == action && e.at < before)
    decreases |events|
  {
    if events == [] {
    } else {
      PrunedExactly(events[..|events| - 1], action, before, e);
      assert events == events[..|events| - 1] + [events[|events| - 1]];
    }
  }

  /** After a call that was let through, the table holds it and every earlier event that a window still reaches. */
  lemma TableExactly(events: seq<RateLimitEvent>, limits: Limits, action: string, user: nat, now: int,
                     e: RateLimitEvent)
    requires action in limits && Enforce(events, limits, true, action, user, now).1.Allowed?
    ensures e in Enforce(events, limits, true, action, user, now).0
      <==> (e in events || e == RateLimitEvent(user, action, now)) && Reached(e, limits[action], action, now)
  {
    hide Longest, Pruned, Decide;
    var windows := limits[action].perUser + limits[action].global;
    var added := events + [RateLimitEvent(user, action, now)];
    PrunedExactly(added, action, now - Longest(windows) * MICROS, e);
    LongestBounds(windows);
    if windows != [] {
      LongestIsOne(windows);
    }
  }

  // ---- runs ---------------------------------------------------------------------------------

  /** A call of the limiter; `commits` is false when its request is rolled back afterwards. */
  datatype Call = Call(action: string, user: nat, now: int, commits: bool)

  predicate NonDecreasing(calls: seq<Call>) {
    forall i, j :: 0 <= i < j < |calls| ==> calls[i].now <= calls[j].now
  }

  /** The table as the code keeps it. */
  function Table(limits: Limits, calls: seq<Call>): seq<RateLimitEvent> {
    if calls == [] then [] else
      var before, c := Table(limits, calls[..|calls| - 1]), calls[|calls| - 1];
      if c.commits then Enforce(before, limits, true, c.action, c.user, c.now).0 else before
  }

  /** What the code lets through and commits, each call answered from the pruned table. */
  function LetThrough(limits: Limits, calls: seq<Call>): seq<RateLimitEvent> {
    if calls == [] then [] else
      var before, c := LetThrough(limits, calls[..|calls| - 1]), calls[|calls| - 1];
      if c.commits && c.action in limits
         && Enforce(Table(limits, calls[..|calls| - 1]), limits, true, c.action, c.user, c.now).1.Allowed?
      then before + [RateLimitEvent(c.user, c.action, c.now)] else before
  }

  /** The complete history of accepted and committed events, decided on the history itself. */
  function Accepted(limits: Limits, calls: seq<Call>): seq<RateLimitEvent> {
    if calls == [] then [] else
      var before, c := Accepted(limits, calls[..|calls| - 1]), calls[|calls| - 1];
      if c.commits && c.action in limits && Decide(before, limits[c.action], c.action, c.user, c.now).Allowed?
      then before + [RateLimitEvent(c.user, c.action, c.now)] else before
  }

  /** The table and the history count the same wherever a window can still look. */
  ghost predicate SameCounts(limits: Limits, table: seq<RateLimitEvent>, history: seq<RateLimitEvent>, now: int) {
    forall action, since, user ::
      action in limits && since >= now - Longest(limits[action].perUser + limits[action].global) * MICROS ==>
        CountEvents(table, action, since, user) == CountEvents(history, action, since, user)
  }

  lemma SameDecision(limits: Limits, table: seq<RateLimitEvent>, history: seq<RateLimitEvent>, action: string,
                     user: nat, now: int)
    requires action in limits && SameCounts(limits, table, history, now)
    ensures Decide(table, limits[action], action, user, now) == Decide(history, limits[action], action, user, now)
  {
    var l := limits[action];
    LongestBounds(l.perUser + l.global);
    SameFirstFull(table, history, l.perUser, action, now, Some(user), Longest(l.perUser + l.global));
    SameFirstFull(table, history, l.global, action, now, None, Longest(l.perUser + l.global));
  }

  lemma {:induction false} SameFirstFull(table: seq<RateLimitEvent>, history: seq<RateLimitEvent>, windows: seq<Window>,
                                         action: string, now: int, user: Option<nat>, longest: nat)
    requires forall k :: 0 <= k < |windows| ==> windows[k].seconds <= longest
    requires forall since :: since >= now - longest * MICROS ==>
      CountEvents(table, action, since, user) == CountEvents(history, action, since, user)
    ensures FirstFull(table, windows, action, now, user) == FirstFull(history, windows, action, now, user)
    decreases |windows|
  {
    if windows == [] {
    } else {
      SameFirstFull(table, history, windows[..|windows| - 1], action, now, user, longest);
      assert now - windows[|windows| - 1].seconds * MICROS >= now - longest * MICROS;
    }
  }

  lemma RecordedCount(table: seq<RateLimitEvent>, history: seq<RateLimitEvent>, l: ActionLimits, action: string,
                      user: nat, now: int,
                      other: string, since: int, u: Option<nat>)
    requires CountEvents(table, other, since, u) == CountEvents(history, other, since, u)
    requires other == action ==> since >= now - Longest(l.perUser + l.global) * MICROS
    ensures CountEvents(Recorded(table, l, action, user, now), other, since, u)
      == CountEvents(history + [RateLimitEvent(user, action, now)], other, since, u)
  {
    var e := RateLimitEvent(user, action, now);
    CountAppend(table, e, Since(other, since, u));
    CountAppend(history, e, Since(other, since, u));
    if l.perUser + l.global != [] {
      PrunedCount(table + [e], action, now - Longest(l.perUser + l.global) * MICROS, other, since, u);
    }
  }

  lemma RecordedCounts(limits: Limits, table: seq<RateLimitEvent>, history: seq<RateLimitEvent>, action: string,
                       user: nat, now: int)
    requires action in limits && SameCounts(limits, table, history, now)
    ensures SameCounts(limits, Recorded(table, limits[action], action, user, now),
      history + [RateLimitEvent(user, action, now)], now)
  {
    var table' := Recorded(table, limits[action], action, user, now);
    var history' := history + [RateLimitEvent(user, action, now)];
    forall other, since, u
      | other in limits && since >= now - Longest(limits[other].perUser + limits[other].global) * MICROS
      ensures CountEvents(table', other, since, u) == CountEvents(history', other, since, u)
    {
      RecordedCount(table, history, limits[action], action, user, now, other, since, u);
    }
  }

  lemma {:induction false} TableMatchesHistory(limits: Limits, calls: seq<Call>, now: int)
    requires NonDecreasing(calls) && forall k :: 0 <= k < |calls| ==> calls[k].now <= now
    ensures SameCounts(limits, Table(limits, calls), Accepted(limits, calls), now)
    decreases |calls|
  {
    if calls == [] {
    } else {
      var front, c := calls[..|calls| - 1], calls[|calls| - 1];
      TableMatchesHistory(limits, front, c.now);
      var table, history := Table(limits, front), Accepted(limits, front);
      if c.commits && c.action in limits {
        SameDecision(limits, table, history, c.action, c.user, c.now);
        RecordedCounts(limits, table, history, c.action, c.user, c.now);
      }
      assert SameCounts(limits, Table(limits, calls), Accepted(limits, calls), c.now);
    }
  }

  lemma FrontInOrder(calls: seq<Call>, next: Call)
    requires NonDecreasing(calls + [next])
    ensures NonDecreasing(calls) && forall k :: 0 <= k < |calls| ==> calls[k].now <= next.now
  {
    var all := calls + [next];
    forall i, j | 0 <= i < j < |calls|
      ensures calls[i].now <= calls[j].now
    {
      assert all[i].now <= all[j].now;
    }
    forall k | 0 <= k < |calls|
      ensures calls[k].now <= next.now
    {
      assert all[k].now <= all[|calls|].now;
    }
  }

  /** One more call is answered from the pruned table as it would be from the complete history. */
  lemma NextAnsweredAlike(limits: Limits, calls: seq<Call>, next: Call)
    requires NonDecreasing(calls + [next])
    ensures Enforce(Table(limits, calls), limits, true, next.action, next.user, next.now).1
      == Enforce(Accepted(limits, calls), limits, true, next.action, next.user, next.now).1
  {
    FrontInOrder(calls, next);
    TableMatchesHistory(limits, calls, next.now);
    if next.action in limits {
      SameDecision(limits, Table(limits, calls), Accepted(limits, calls), next.action, next.user, next.now);
    }
  }

  /**
   * Pruning is invisible: for non-decreasing times, the limiter on the pruned table lets through, over
   * the whole run, exactly the calls it would let through on the complete history.
   */
  lemma {:induction false} PruningInvisible(limits: Limits, calls: seq<Call>)
    requires NonDecreasing(calls)
    ensures LetThrough(limits, calls) == Accepted(limits, calls)
    decreases |calls|
  {
    if calls == [] {
    } else {
      var front, c := calls[..|calls| - 1], calls[|calls| - 1];
      assert front + [c] == calls;
      FrontInOrder(front, c);
      PruningInvisible(limits, front);
      NextAnsweredAlike(limits, front, c);
    }
  }

  // ---- the bound ----------------------------------------------------------------------------

  function Within(action: string, from: int, length: int, user: Option<nat>): RateLimitEvent -> bool {
    (e: RateLimitEvent) => e.action == action && from <= e.at <= from + length && (user.None? || e.user == user.value)
  }

  function InSpan(history: seq<RateLimitEvent>, action: string, from: int, length: int, user: Option<nat>): nat {
    Count(history, Within(action, from, length, user))
  }

  /** No interval as long as the window ever holds more accepted events than its limit. */
  ghost predicate Bounded(history: seq<RateLimitEvent>, action: string, w: Window, user: Option<nat>) {
    forall from :: InSpan(history, action, from, w.seconds * MICROS, user) <= w.limit
  }

  lemma BoundedStep(history: seq<RateLimitEvent>, e: RateLimitEvent, action: string, w: Window, user: Option<nat>)
    requires Bounded(history, action, w, user)
    requires (e.action == action && (user.None? || e.user == user.value)) ==> !Full(history, w, action, e.at, user)
    ensures Bounded(history + [e], action, w, user)
  {
    var length := w.seconds * MICROS;
    forall from
      ensures InSpan(history + [e], action, from, length, user) <= w.limit
    {
      var p := Within(action, from, length, user);
      assert InSpan(history, action, from, length, user) <= w.limit;
      CountAppend(history, e, p);
      if p(e) {
        CountMonotone(history, p, Since(action, e.at - length, user));
      }
    }
  }

  /**
   * The sliding-window bound, for every table of limits: over any run with non-decreasing times, every
   * closed time interval of a window's length holds at most the window's limit of calls let through, of
   * one user for a per-user window and of all users for a global one.
   */
  lemma SlidingWindowBound(limits: Limits, calls: seq<Call>, action: string, w: Window, user: Option<nat>)
    requires NonDecreasing(calls) && action in limits
    requires if user.Some? then w in limits[action].perUser else w in limits[action].global
    ensures Bounded(LetThrough(limits, calls), action, w, user)
  {
    PruningInvisible(limits, calls);
    HistoryBounded(limits, calls, action, w, user);
  }

  lemma {:induction false} HistoryBounded(limits: Limits, calls: seq<Call>, action: string, w: Window,
                                          user: Option<nat>)
    requires action in limits
    requires if user.Some? then w in limits[action].perUser else w in limits[action].global
    ensures Bounded(Accepted(limits, calls), action, w, user)
    decreases |calls|
  {
    if calls == [] {
      assert forall from, length :: InSpan([], action, from, length, user) == 0;
    } else {
      var c, history := calls[|calls| - 1], Accepted(limits, calls[..|calls| - 1]);
      HistoryBounded(limits, calls[..|calls| - 1], action, w, user);
      if Accepted(limits, calls) != history {
        BoundedStep(history, RateLimitEvent(c.user, c.action, c.now), action, w, user);
      }
    }
  }

  /** With the limits that ship, taken one call at a time: no user ever withdraws twice within 30 seconds. */
  lemma NoSecondWithdrawalWithinHalfAMinute(calls: seq<Call>, user: nat, from: int)
    requires NonDecreasing(calls)
    ensures InSpan(LetThrough(LIMITS, calls), "withdrawal", from, 30 * MICROS, Some(user)) <= 1
  {
    var w := LIMITS["withdrawal"].perUser[0];
    assert w == Window(30, 1) && w in LIMITS["withdrawal"].perUser;
    SlidingWindowBound(LIMITS, calls, "withdrawal", w, Some(user));
  }
}
