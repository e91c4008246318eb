/**
 * Overlapping calls of the rate limiter. Each window is counted in a step of its own and sees committed
 * events only; the insert and the pruning take effect at commit, so calls that overlap do not see each
 * other, and a call that stalls may count a table that a later call has pruned.
 */
module RateRace {
  import opened Wrappers
  import opened Sums
  import opened Tables
  import opened RateLimit

  /** A call past its clock reading. */
  datatype Ask = Ask(action: string, user: nat, now: int)

  datatype Phase =
    | Idle
    | Counting(ask: Ask, passed: nat)      // the first `passed` windows had room

  /** `history` keeps every committed event; `clock` is the latest time a call has read. */
  datatype World = World(table: seq<RateLimitEvent>, history: seq<RateLimitEvent>, clock: int, sessions: seq<Phase>)

  datatype Event =
    | Begin(session: nat, ask: Ask)
    | CountNext(session: nat)
    | Commit(session: nat, spares: RateLimitEvent -> bool)    // `spares`: rows committed after the delete looked
    | Rollback(session: nat)

  function WindowsOf(l: ActionLimits): seq<Window> {
    l.perUser + l.global
  }

  /** Per-user windows come first. */
  function ScopeOf(l: ActionLimits, k: nat, user: nat): Option<nat> {
    if k < |l.perUser| then Some(user) else None
  }

  function EventOf(a: Ask): RateLimitEvent {
    RateLimitEvent(a.user, a.action, a.now)
  }

  predicate Prunable(e: RateLimitEvent, action: string, before: int) {
    e.action == action && e.at < before
  }

  function Swept(events: seq<RateLimitEvent>, action: string, before: int, spares: RateLimitEvent -> bool)
    : seq<RateLimitEvent>
  {
    if events == [] then [] else
      var front, e := Swept(events[..|events| - 1], action, before, spares), events[|events| - 1];
      if Prunable(e, action, before) && !spares(e) then front else front + [e]
  }

  /** The committed table after a call that was let through. */
  function After(table: seq<RateLimitEvent>, l: ActionLimits, a: Ask, spares: RateLimitEvent -> bool)
    : seq<RateLimitEvent>
  {
    var rest :=
      if WindowsOf(l) == [] then table
      else Swept(table, a.action, a.now - Longest(WindowsOf(l)) * MICROS, spares);
    rest + [EventOf(a)]
  }

  function To(w: World, i: nat, p: Phase): World
    requires i < |w.sessions|
  {
    w.(sessions := w.sessions[i := p])
  }

  function Next(w: World, limits: Limits, e: Event): World {
    if e.session >= |w.sessions| then w
    else
      var i, p := e.session, w.sessions[e.session];
      match e
      case Begin(_, ask) => if p.Idle? && ask.action in limits then To(w, i, Counting(ask, 0)).(clock := ask.now) else w
      case CountNext(_) =>
        if p.Idle? || p.ask.action !in limits then w
        else
          var l := limits[p.ask.action];
          if p.passed >= |WindowsOf(l)| then w
          else if Full(w.table, WindowsOf(l)[p.passed], p.ask.action, p.ask.now, ScopeOf(l, p.passed, p.ask.user))
          then To(w, i, Idle)
          else To(w, i, Counting(p.ask, p.passed + 1))
      case Commit(_, spares) =>
        if p.Idle? || p.ask.action !in limits || p.passed < |WindowsOf(limits[p.ask.action])| then w
        else To(w, i, Idle).(table := After(w.table, limits[p.ask.action], p.ask, spares),
                             history := w.history + [EventOf(p.ask)])
      case Rollback(_) => To(w, i, Idle)
  }

  /** Clock readings do not go back. */
  predicate Allowed(w: World, e: Event) {
    e.Begin? ==> e.ask.now >= w.clock
  }

  function Start(sessions: nat, clock: int): World {
    World([], [], clock, seq(sessions, i => Idle))
  }

  function Run(sessions: nat, clock: int, limits: Limits, events: seq<Event>): World {
    if events == [] then Start(sessions, clock)
    else Next(Run(sessions, clock, limits, events[..|events| - 1]), limits, events[|events| - 1])
  }

  predicate AllowedRun(sessions: nat, clock: int, limits: Limits, events: seq<Event>) {
    events == [] ||
    (AllowedRun(sessions, clock, limits, events[..|events| - 1]) &&
     Allowed(Run(sessions, clock, limits, events[..|events| - 1]), events[|events| - 1]))
  }

  // ---- undisturbed, the steps are the limiter -----------------------------------------------

  function CountAll(w: World, limits: Limits, n: nat): World {
    if n == 0 then w else Next(CountAll(w, limits, n - 1), limits, CountNext(0))
  }

  /** A whole call on the table without interference. */
  function Alone(table: seq<RateLimitEvent>, limits: Limits, a: Ask): World
    requires a.action in limits
  {
    var w := Next(World(table, table, a.now, [Idle]), limits, Begin(0, a));
    Next(CountAll(w, limits, |WindowsOf(limits[a.action])|), limits, Commit(0, e => false))
  }

  predicate HasRoom(table: seq<RateLimitEvent>, l: ActionLimits, a: Ask, k: nat)
    requires k < |WindowsOf(l)|
  {
    !Full(table, WindowsOf(l)[k], a.action, a.now, ScopeOf(l, k, a.user))
  }

  lemma {:induction false} CountAllDecides(table: seq<RateLimitEvent>, limits: Limits, a: Ask, n: nat)
    requires a.action in limits && n <= |WindowsOf(limits[a.action])|
    ensures var l, w := limits[a.action], World(table, table, a.now, [Counting(a, 0)]);
      CountAll(w, limits, n) == w.(sessions :=
        [if forall k :: 0 <= k < n ==> HasRoom(table, l, a, k) then Counting(a, n) else Idle])
    decreases n
  {
    if n == 0 {
      return;
    }
    hide Full;
    CountAllDecides(table, limits, a, n - 1);
    assert HasRoom(table, limits[a.action], a, n - 1) || !HasRoom(table, limits[a.action], a, n - 1);
  }

  lemma RoomIsAllowed(table: seq<RateLimitEvent>, l: ActionLimits, a: Ask)
    ensures Decide(table, l, a.action, a.user, a.now).Allowed?
      <==> forall k :: 0 <= k < |WindowsOf(l)| ==> HasRoom(table, l, a, k)
  {
    hide Full;
    assert forall k :: 0 <= k < |l.perUser| ==> WindowsOf(l)[k] == l.perUser[k];
    assert forall k :: 0 <= k < |l.global| ==> WindowsOf(l)[|l.perUser| + k] == l.global[k];
    if forall k :: 0 <= k < |WindowsOf(l)| ==> HasRoom(table, l, a, k) {
      forall k | 0 <= k < |l.perUser|
        ensures !Full(table, l.perUser[k], a.action, a.now, Some(a.user))
      {
        assert HasRoom(table, l, a, k);
      }
      forall k | 0 <= k < |l.global|
        ensures !Full(table, l.global[k], a.action, a.now, None)
      {
        assert HasRoom(table, l, a, |l.perUser| + k);
      }
    }
  }

  lemma {:induction false} SweptIsPruned(events: seq<RateLimitEvent>, action: string, before: int)
    ensures Swept(events, action, before, e => false) == Pruned(events, action, before)
    decreases |events|
  {
    if events == [] {
    } else {
      SweptIsPruned(events[..|events| - 1], action, before);
    }
  }

  /** Undisturbed, the steps add up to `enforce_rate_limit`. */
  lemma AloneIsEnforce(table: seq<RateLimitEvent>, limits: Limits, a: Ask)
    requires a.action in limits
    ensures Alone(table, limits, a).table == Enforce(table, limits, true, a.action, a.user, a.now).0
    ensures Alone(table, limits, a).history ==
      if Enforce(table, limits, true, a.action, a.user, a.now).1.Allowed? then table + [EventOf(a)] else table
  {
    hide HasRoom, CountAll, Swept, Pruned, FirstFull, Decide;
    var l := limits[a.action];
    var begun := World(table, table, a.now, [Counting(a, 0)]);
    assert Next(World(table, table, a.now, [Idle]), limits, Begin(0, a)) == begun;
    CountAllDecides(table, limits, a, |WindowsOf(l)|);
    RoomIsAllowed(table, l, a);
    var before := a.now - Longest(WindowsOf(l)) * MICROS;
    SweptIsPruned(table, a.action, before);
    OwnEventStays(table, EventOf(a), a.action, before);
  }

  lemma OwnEventStays(table: seq<RateLimitEvent>, e: RateLimitEvent, action: string, before: int)
    ensures e.at >= before ==> Pruned(table + [e], action, before) == Pruned(table, action, before) + [e]
  {
    assert (table + [e])[..|table|] == table;
  }

  // ---- what a fixed interval sees -----------------------------------------------------------

  /** A window of an action, its scope, and an interval of its length. */
  datatype Frame = Frame(action: string, k: nat, user: Option<nat>, from: int)

  predicate Fits(limits: Limits, f: Frame) {
    && f.action in limits && f.k < |WindowsOf(limits[f.action])|
    && (f.user.Some? <==> f.k < |limits[f.action].perUser|)
  }

  function Span(limits: Limits, f: Frame): int
    requires Fits(limits, f)
  {
    WindowsOf(limits[f.action])[f.k].seconds * MICROS
  }

  function Limit(limits: Limits, f: Frame): nat
    requires Fits(limits, f)
  {
    WindowsOf(limits[f.action])[f.k].limit
  }

  function Inside(limits: Limits, f: Frame): RateLimitEvent -> bool
    requires Fits(limits, f)
  {
    Within(f.action, f.from, Span(limits, f), f.user)
  }

  /** Open calls whose event would fall into the frame, past its window or not yet. */
  function PassedIn(limits: Limits, f: Frame): Phase -> int
    requires Fits(limits, f)
  {
    (p: Phase) => if p.Counting? && Inside(limits, f)(EventOf(p.ask)) && p.passed > f.k then 1 else 0
  }

  function PendingIn(limits: Limits, f: Frame): Phase -> int
    requires Fits(limits, f)
  {
    (p: Phase) => if p.Counting? && Inside(limits, f)(EventOf(p.ask)) && p.passed <= f.k then 1 else 0
  }

  function Held(w: World, limits: Limits, f: Frame): int
    requires Fits(limits, f)
  {
    Count(w.history, Inside(limits, f)) + SumBy(w.sessions, PassedIn(limits, f))
  }

  function Waiting(w: World, limits: Limits, f: Frame): int
    requires Fits(limits, f)
  {
    SumBy(w.sessions, PendingIn(limits, f))
  }

  /** The table still has every event of the frame. */
  predicate Intact(w: World, limits: Limits, f: Frame)
    requires Fits(limits, f)
  {
    && Count(w.table, Inside(limits, f)) == Count(w.history, Inside(limits, f))
    && Held(w, limits, f) <= Limit(limits, f) + |w.sessions| - 1
  }

  /** Some event of the frame was pruned; then the clock is past the frame and no call can enter it any more. */
  predicate Outlived(w: World, limits: Limits, f: Frame)
    requires Fits(limits, f)
  {
    && w.clock > f.from + Span(limits, f)
    && Held(w, limits, f) + Waiting(w, limits, f) <= Limit(limits, f) + 2 * (|w.sessions| - 1)
  }

  predicate Ok(w: World, limits: Limits, f: Frame)
    requires Fits(limits, f)
  {
    && |w.sessions| > 0
    && (forall i :: 0 <= i < |w.sessions| && w.sessions[i].Counting? ==> w.sessions[i].ask.now <= w.clock)
    && (Intact(w, limits, f) || Outlived(w, limits, f))
  }

  // ---- counting lemmas ----------------------------------------------------------------------

  lemma {:induction false} SumAtMost(sessions: seq<Phase>, f: Phase -> int, g: Phase -> int)
    requires forall p :: 0 <= f(p) && 0 <= g(p) && f(p) + g(p) <= 1
    ensures 0 <= SumBy(sessions, f) && 0 <= SumBy(sessions, g)
    ensures SumBy(sessions, f) + SumBy(sessions, g) <= |sessions|
    decreases |sessions|
  {
    if sessions == [] {
    } else {
      SumAtMost(sessions[..|sessions| - 1], f, g);
    }
  }

  /** Without the session `i`, which counts for neither. */
  lemma SumWithout(sessions: seq<Phase>, i: nat, f: Phase -> int, g: Phase -> int)
    requires i < |sessions| && f(sessions[i]) == 0 && g(sessions[i]) == 0
    requires forall p :: 0 <= f(p) && 0 <= g(p) && f(p) + g(p) <= 1
    ensures SumBy(sessions, f) + SumBy(sessions, g) <= |sessions| - 1
  {
    var others := sessions[..i] + sessions[i + 1..];
    SumSkip(sessions, i, f);
    SumSkip(sessions, i, g);
    SumAtMost(others, f, g);
  }

  lemma {:induction false} SumSkip(sessions: seq<Phase>, i: nat, f: Phase -> int)
    requires i < |sessions|
    ensures SumBy(sessions, f) == SumBy(sessions[..i] + sessions[i + 1..], f) + f(sessions[i])
    decreases |sessions|
  {
    var front, last := sessions[..|sessions| - 1], sessions[|sessions| - 1];
    if i == |front| {
      assert sessions[..i] + sessions[i + 1..] == front;
    } else {
      SumSkip(front, i, f);
      assert sessions[..i] + sessions[i + 1..] == front[..i] + front[i + 1..] + [last];
      SumByAppend(front[..i] + front[i + 1..], last, f);
    }
  }

  lemma {:induction false} SweptCount(events: seq<RateLimitEvent>, action: string, before: int,
                                      spares: RateLimitEvent -> bool, p: RateLimitEvent -> bool)
    requires forall e :: p(e) ==> !Prunable(e, action, before)
    ensures Count(Swept(events, action, before, spares), p) == Count(events, p)
    decreases |events|
  {
    if events == [] {
    } else {
      SweptCount(events[..|events| - 1], action, before, spares, p);
      CountAppend(Swept(events[..|events| - 1], action, before, spares), events[|events| - 1], p);
    }
  }

  lemma {:induction false} LongestAtLeast(windows: seq<Window>, k: nat)
    requires k < |windows|
    ensures windows[k].seconds <= Longest(windows)
  {
    LongestBounds(windows);
    assert windows[k] in windows;
  }

  // ---- what every step keeps ----------------------------------------------------------------

  /** Replacing one session's phase. */
  lemma Replaced(w: World, limits: Limits, f: Frame, i: nat, p: Phase)
    requires Fits(limits, f) && i < |w.sessions|
    ensures Held(To(w, i, p), limits, f) == Held(w, limits, f) - PassedIn(limits, f)(w.sessions[i]) + PassedIn(limits,
      f)(p)
    ensures Waiting(To(w, i, p), limits, f)
      == Waiting(w, limits, f) - PendingIn(limits, f)(w.sessions[i]) + PendingIn(limits, f)(p)
  {
    SumByUpdate(w.sessions, i, p, PassedIn(limits, f));
    SumByUpdate(w.sessions, i, p, PendingIn(limits, f));
  }

  lemma BeginKeeps(w: World, limits: Limits, f: Frame, i: nat, a: Ask)
    requires Fits(limits, f) && Ok(w, limits, f) && i < |w.sessions| && w.sessions[i].Idle? && a.now >= w.clock
    ensures Ok(To(w, i, Counting(a, 0)).(clock := a.now), limits, f)
  {
    hide Count;
    var v := To(w, i, Counting(a, 0)).(clock := a.now);
    Replaced(w, limits, f, i, Counting(a, 0));
    assert Held(v, limits, f) == Held(w, limits, f) && v.table == w.table && v.history == w.history;
    if Outlived(w, limits, f) {
      assert !Inside(limits, f)(EventOf(a));
      assert PendingIn(limits, f)(Counting(a, 0)) == 0 && PendingIn(limits, f)(Idle) == 0;
      assert Waiting(v, limits, f) == Waiting(w, limits, f);
    }
    assert Intact(w, limits, f) ==> Intact(v, limits, f);
    assert Outlived(w, limits, f) ==> Outlived(v, limits, f);
  }

  /** A session that leaves. */
  lemma LeaveKeeps(w: World, limits: Limits, f: Frame, i: nat)
    requires Fits(limits, f) && Ok(w, limits, f) && i < |w.sessions|
    ensures Ok(To(w, i, Idle), limits, f)
  {
    hide Count;
    Replaced(w, limits, f, i, Idle);
  }

  /** Passing the frame's own window while the table is intact: fewer than the limit were committed. */
  lemma RoomInside(w: World, limits: Limits, f: Frame, a: Ask)
    requires Fits(limits, f) && Intact(w, limits, f) && Inside(limits, f)(EventOf(a))
    requires HasRoom(w.table, limits[f.action], a, f.k)
    ensures Count(w.history, Inside(limits, f)) < Limit(limits, f)
  {
    var since := Since(f.action, a.now - Span(limits, f), ScopeOf(limits[f.action], f.k, a.user));
    CountMonotone(w.table, Inside(limits, f), since);
  }

  lemma PassKeeps(w: World, limits: Limits, f: Frame, i: nat)
    requires Fits(limits, f) && Ok(w, limits, f) && i < |w.sessions| && w.sessions[i].Counting?
    requires var p := w.sessions[i];
      p.ask.action in limits && p.passed < |WindowsOf(limits[p.ask.action])| &&
      HasRoom(w.table, limits[p.ask.action], p.ask, p.passed)
    ensures var p := w.sessions[i]; Ok(To(w, i, Counting(p.ask, p.passed + 1)), limits, f)
  {
    hide Count, HasRoom;
    var p := w.sessions[i];
    Replaced(w, limits, f, i, Counting(p.ask, p.passed + 1));
    if Intact(w, limits, f) && p.passed == f.k && Inside(limits, f)(EventOf(p.ask)) {
      RoomInside(w, limits, f, p.ask);
      SumAtMost(To(w, i, Counting(p.ask, p.passed + 1)).sessions, PassedIn(limits, f), PendingIn(limits, f));
    }
  }

  /** Pruning reaches into the frame only once the call that prunes is past it. */
  lemma PrunedPast(table: seq<RateLimitEvent>, limits: Limits, f: Frame, a: Ask, spares: RateLimitEvent -> bool)
    requires Fits(limits, f) && a.action in limits
    ensures
      || Count(After(table, limits[a.action], a, spares), Inside(limits, f))
           == Count(table, Inside(limits, f)) + (if Inside(limits, f)(EventOf(a)) then 1 else 0)
      || a.now > f.from + Span(limits, f)
  {
    hide Count, Swept, Longest;
    var l := limits[a.action];
    var before := a.now - Longest(WindowsOf(l)) * MICROS;
    var rest := if WindowsOf(l) == [] then table else Swept(table, a.action, before, spares);
    CountAppend(rest, EventOf(a), Inside(limits, f));
    if WindowsOf(l) != [] && a.now <= f.from + Span(limits, f) {
      NotPrunable(limits, f, a);
      SweptCount(table, a.action, before, spares, Inside(limits, f));
    }
  }

  lemma NotPrunable(limits: Limits, f: Frame, a: Ask)
    requires Fits(limits, f) && a.action in limits && a.now <= f.from + Span(limits, f)
    ensures var before := a.now - Longest(WindowsOf(limits[a.action])) * MICROS;
      forall e :: Inside(limits, f)(e) ==> !Prunable(e, a.action, before)
  {
    if a.action == f.action {
      LongestAtLeast(WindowsOf(limits[a.action]), f.k);
    }
  }

  lemma CommitKeeps(w: World, limits: Limits, f: Frame, i: nat, spares: RateLimitEvent -> bool)
    requires Fits(limits, f) && Ok(w, limits, f) && i < |w.sessions| && w.sessions[i].Counting?
    requires var p := w.sessions[i]; p.ask.action in limits && p.passed >= |WindowsOf(limits[p.ask.action])|
    ensures Ok(Next(w, limits, Commit(i, spares)), limits, f)
  {
    hide Count, After;
    var a, w' := w.sessions[i].ask, Next(w, limits, Commit(i, spares));
    Replaced(w, limits, f, i, Idle);
    CountAppend(w.history, EventOf(a), Inside(limits, f));
    PrunedPast(w.table, limits, f, a, spares);
    if Intact(w, limits, f) && a.now > f.from + Span(limits, f) {
      SumWithout(w.sessions, i, PassedIn(limits, f), PendingIn(limits, f));
      SumAtMost(w.sessions, PassedIn(limits, f), PendingIn(limits, f));
    }
  }

  lemma NextKeeps(w: World, limits: Limits, f: Frame, e: Event)
    requires Fits(limits, f) && Ok(w, limits, f) && Allowed(w, e)
    ensures Ok(Next(w, limits, e), limits, f)
  {
    if e.session < |w.sessions| {
      hide Ok, Full;
      var i, p := e.session, w.sessions[e.session];
      match e
      case Begin(_, a) =>
        if p.Idle? && a.action in limits {
          BeginKeeps(w, limits, f, i, a);
        }
      case CountNext(_) =>
        if p.Counting? && p.ask.action in limits && p.passed < |WindowsOf(limits[p.ask.action])| {
          if HasRoom(w.table, limits[p.ask.action], p.ask, p.passed) {
            PassKeeps(w, limits, f, i);
          } else {
            LeaveKeeps(w, limits, f, i);
          }
        }
      case Commit(_, spares) =>
        if p.Counting? && p.ask.action in limits && p.passed >= |WindowsOf(limits[p.ask.action])| {
          CommitKeeps(w, limits, f, i, spares);
        }
      case Rollback(_) => LeaveKeeps(w, limits, f, i);
    }
  }

  lemma StartOk(sessions: nat, clock: int, limits: Limits, f: Frame)
    requires Fits(limits, f) && sessions > 0
    ensures Ok(Start(sessions, clock), limits, f)
  {
    SumByZero(Start(sessions, clock).sessions, PassedIn(limits, f));
  }

  lemma {:induction false} RunOk(sessions: nat, clock: int, limits: Limits, f: Frame, events: seq<Event>)
    requires Fits(limits, f) && sessions > 0 && AllowedRun(sessions, clock, limits, events)
    ensures Ok(Run(sessions, clock, limits, events), limits, f) && |Run(sessions, clock, limits, events).sessions|
      == sessions
    decreases |events|
  {
    if events == [] {
      StartOk(sessions, clock, limits, f);
      return;
    }
    hide Ok, Fits, Allowed;
    RunOk(sessions, clock, limits, f, events[..|events| - 1]);
    NextKeeps(Run(sessions, clock, limits, events[..|events| - 1]), limits, f, events[|events| - 1]);
  }

  /**
   * Over every interleaving of `sessions` calls at a time, with clock readings that do not go back, every
   * closed interval of a window's length holds at most the window's limit of committed calls plus two for
   * every session but one. With one session this is the limit itself.
   */
  lemma OverlapBound(sessions: nat, clock: int, limits: Limits, f: Frame, events: seq<Event>)
    requires Fits(limits, f) && sessions > 0 && AllowedRun(sessions, clock, limits, events)
    ensures InSpan(Run(sessions, clock, limits, events).history, f.action, f.from, Span(limits, f), f.user)
      <= Limit(limits, f) + 2 * (sessions - 1)
  {
    hide Run, AllowedRun;
    RunOk(sessions, clock, limits, f, events);
    FromOk(Run(sessions, clock, limits, events), limits, f);
  }

  lemma FromOk(w: World, limits: Limits, f: Frame)
    requires Fits(limits, f) && Ok(w, limits, f)
    ensures Count(w.history, Inside(limits, f)) <= Limit(limits, f) + 2 * (|w.sessions| - 1)
  {
    hide Count;
    SumAtMost(w.sessions, PassedIn(limits, f), PendingIn(limits, f));
  }

  // ---- the bound is reached -----------------------------------------------------------------

  ghost predicate Reaches(sessions: nat, clock: int, limits: Limits, f: Frame, events: seq<Event>) {
    && Fits(limits, f) && sessions == 2 && Limit(limits, f) == 1 && AllowedRun(sessions, clock, limits, events)
    && InSpan(Run(sessions, clock, limits, events).history, f.action, f.from, Span(limits, f), f.user) == 3
  }

  const ONE_A_SECOND: Limits := map["a" := ActionLimits([Window(1, 1)], [])]
  const EARLY := Ask("a", 0, 0)
  const STALLED := Ask("a", 0, 1_000_000)
  const LATE := Ask("a", 1, 3_000_000)

  function SparesNone(): RateLimitEvent -> bool {
    (e: RateLimitEvent) => false
  }

  /** Two calls pass side by side; a third stalls before it counts until another user's call has pruned them. */
  const SQUEEZE := [Begin(0, EARLY), Begin(1, EARLY), CountNext(0), CountNext(1),
                    Commit(0, SparesNone()), Commit(1, SparesNone()), Begin(0, STALLED), Begin(1, LATE),
                    CountNext(1), Commit(1, SparesNone()), CountNext(0), Commit(0, SparesNone())]

  ghost predicate SqueezeAt(k: nat, w: World) {
    k <= |SQUEEZE| && AllowedRun(2, 0, ONE_A_SECOND, SQUEEZE[..k]) && Run(2, 0, ONE_A_SECOND, SQUEEZE[..k]) == w
  }

  lemma SqueezeStep(k: nat, w: World, e: Event, v: World)
    requires SqueezeAt(k, w) && k < |SQUEEZE| && SQUEEZE[k] == e && Allowed(w, e) && Next(w, ONE_A_SECOND, e) == v
    ensures SqueezeAt(k + 1, v)
  {
    hide Next, Allowed;
    assert SQUEEZE[..k + 1][..k] == SQUEEZE[..k];
  }

  lemma SqueezeStarts()
    ensures SqueezeAt(0, World([], [], 0, [Idle, Idle]))
  {
    assert SQUEEZE[..0] == [];
  }

  /** The table of the example as one user's counts see it. */
  lemma CountsOf(table: seq<RateLimitEvent>, a: Ask, n: nat)
    requires a.action == "a" && n <= 1
    requires Count(table, Since("a", a.now - MICROS, Some(a.user))) == n
    ensures Full(table, WindowsOf(ONE_A_SECOND["a"])[0], "a", a.now, ScopeOf(ONE_A_SECOND["a"], 0, a.user)) <==> n == 1
  {
  }

  lemma SweepsOf(table: seq<RateLimitEvent>, a: Ask)
    requires a.action == "a"
    ensures After(table, ONE_A_SECOND["a"], a, SparesNone()) ==
      Swept(table, "a", a.now - MICROS, SparesNone()) + [EventOf(a)]
  {
    assert [Window(1, 1)] + [] == [Window(1, 1)] && [Window(1, 1)][..0] == [];
  }

  lemma SqueezeOpens()
    ensures SqueezeAt(6, World([EventOf(EARLY), EventOf(EARLY)], [EventOf(EARLY), EventOf(EARLY)], 0, [Idle, Idle]))
  {
    hide SqueezeAt, Full, After;
    var e := EventOf(EARLY);
    SqueezeStarts();
    CountsOf([], EARLY, 0);
    SweepsOf([], EARLY);
    SweepsOf([e], EARLY);
    assert Swept([e], "a", -MICROS, SparesNone()) == [e] by {
      assert [e][..0] == [];
    }
    var w1 := World([], [], 0, [Counting(EARLY, 0), Idle]);
    var w2 := World([], [], 0, [Counting(EARLY, 0), Counting(EARLY, 0)]);
    var w3 := World([], [], 0, [Counting(EARLY, 1), Counting(EARLY, 0)]);
    var w4 := World([], [], 0, [Counting(EARLY, 1), Counting(EARLY, 1)]);
    var w5 := World([e], [e], 0, [Idle, Counting(EARLY, 1)]);
    SqueezeStep(0, World([], [], 0, [Idle, Idle]), Begin(0, EARLY), w1);
    SqueezeStep(1, w1, Begin(1, EARLY), w2);
    SqueezeStep(2, w2, CountNext(0), w3);
    SqueezeStep(3, w3, CountNext(1), w4);
    SqueezeStep(4, w4, Commit(0, SparesNone()), w5);
    SqueezeStep(5, w5, Commit(1, SparesNone()), World([e, e], [e, e], 0, [Idle, Idle]));
  }

  lemma SqueezePrunes()
    ensures var e := EventOf(EARLY);
      SqueezeAt(10, World([EventOf(LATE)], [e, e, EventOf(LATE)], 3_000_000, [Counting(STALLED, 0), Idle]))
  {
    hide SqueezeAt, Full, After;
    var e, d := EventOf(EARLY), EventOf(LATE);
    SqueezeOpens();
    assert [e, e][..1] == [e] && [e][..0] == [];
    assert Count([e], Since("a", 2_000_000, Some(1))) == 0;
    CountsOf([e, e], LATE, 0);
    SweepsOf([e, e], LATE);
    assert Swept([e], "a", 2_000_000, SparesNone()) == [];
    assert Swept([e, e], "a", 2_000_000, SparesNone()) == [];
    var w6 := World([e, e], [e, e], 0, [Idle, Idle]);
    var w7 := World([e, e], [e, e], 1_000_000, [Counting(STALLED, 0), Idle]);
    var w8 := World([e, e], [e, e], 3_000_000, [Counting(STALLED, 0), Counting(LATE, 0)]);
    var w9 := World([e, e], [e, e], 3_000_000, [Counting(STALLED, 0), Counting(LATE, 1)]);
    SqueezeStep(6, w6, Begin(0, STALLED), w7);
    SqueezeStep(7, w7, Begin(1, LATE), w8);
    SqueezeStep(8, w8, CountNext(1), w9);
    SqueezeStep(9, w9, Commit(1, SparesNone()), World([d], [e, e, d], 3_000_000, [Counting(STALLED, 0), Idle]));
  }

  /** The bound cannot be improved: with two sessions, a limit of one lets three calls into one interval. */
  lemma OverlapBoundReached()
    ensures exists sessions, clock, limits, f, events :: Reaches(sessions, clock, limits, f, events)
  {
    hide SqueezeAt, Full, After;
    var e, d, c := EventOf(EARLY), EventOf(LATE), EventOf(STALLED);
    SqueezePrunes();
    assert [d][..0] == [];
    CountsOf([d], STALLED, 0);
    SweepsOf([d], STALLED);
    assert Swept([d], "a", 0, SparesNone()) == [d];
    var w10 := World([d], [e, e, d], 3_000_000, [Counting(STALLED, 0), Idle]);
    var w11 := World([d], [e, e, d], 3_000_000, [Counting(STALLED, 1), Idle]);
    var w12 := World([d, c], [e, e, d, c], 3_000_000, [Idle, Idle]);
    SqueezeStep(10, w10, CountNext(0), w11);
    SqueezeStep(11, w11, Commit(0, SparesNone()), w12);
    SqueezeEnds();
  }

  lemma SqueezeEnds()
    requires var e := EventOf(EARLY);
      SqueezeAt(12, World([EventOf(LATE), EventOf(STALLED)], [e, e, EventOf(LATE), EventOf(STALLED)], 3_000_000,
        [Idle, Idle]))
    ensures Reaches(2, 0, ONE_A_SECOND, Frame("a", 0, Some(0), 0), SQUEEZE)
  {
    hide AllowedRun, Run;
    var e, d, c := EventOf(EARLY), EventOf(LATE), EventOf(STALLED);
    assert SQUEEZE[..12] == SQUEEZE;
    CountFour(e, e, d, c, Within("a", 0, MICROS, Some(0)));
  }

  lemma CountFour(a: RateLimitEvent, b: RateLimitEvent, c: RateLimitEvent, d: RateLimitEvent, p: RateLimitEvent -> bool)
    requires p(a) && p(b) && !p(c) && p(d)
    ensures Count([a, b, c, d], p) == 3
  {
    hide Count;
    NothingCounted(p);
    assert [] + [a] == [a] && [a] + [b] == [a, b] && [a, b] + [c] == [a, b, c] && [a, b, c] + [d] == [a, b, c, d];
    CountAppend([], a, p);
    CountAppend([a], b, p);
    CountAppend([a, b], c, p);
    CountAppend([a, b, c], d, p);
  }

  lemma NothingCounted(p: RateLimitEvent -> bool)
    ensures Count([], p) == 0
  {
  }

  // ---- the limits that ship -----------------------------------------------------------------

  /** Whoever overlaps with whom: what a user can get through in a day, and all users together. */
  lemma WithdrawalsADay(sessions: nat, clock: int, events: seq<Event>, user: nat, from: int)
    requires sessions > 0 && AllowedRun(sessions, clock, LIMITS, events)
    ensures InSpan(Run(sessions, clock, LIMITS, events).history, "withdrawal", from, 86_400 * MICROS, Some(user))
      <= 30 + 2 * (sessions - 1)
    ensures InSpan(Run(sessions, clock, LIMITS, events).history, "withdrawal", from, 86_400 * MICROS, None)
      <= 300 + 2 * (sessions - 1)
  {
    hide Run, AllowedRun;
    ShippedWindows();
    OverlapBound(sessions, clock, LIMITS, Frame("withdrawal", 2, Some(user), from), events);
    OverlapBound(sessions, clock, LIMITS, Frame("withdrawal", 4, None, from), events);
  }

  lemma ShippedWindows()
    ensures "withdrawal" in LIMITS && |LIMITS["withdrawal"].perUser| == 3
    ensures |WindowsOf(LIMITS["withdrawal"])| == 5
    ensures WindowsOf(LIMITS["withdrawal"])[2] == Window(86_400, 30)
    ensures WindowsOf(LIMITS["withdrawal"])[4] == Window(86_400, 300)
  {
  }
}
