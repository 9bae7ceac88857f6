/**
 `get` holds the pool's lock while it leases, lets go of it, and only then joins the queue. What happens in
 between decides whether a request ends up waiting beside an idle cell, or in a pool that is shut down.
 */
module PoolGrain {
  import opened Basics
  import opened TimeTraits
  import opened Storage
  import opened WaitQueues
  import opened Pools
  import opened PoolRuns
  import opened PoolTheorems

  function Idle(s: Store): nat {
    |s.available| + |s.wasted|
  }

  /** The handle whose cell an event gives back, if it has one. */
  function GivesUp(e: Event): Option<nat> {
    match e
    case ReturnEvent(h, _, _) => Some(h)
    case DestroyEvent(h, _) => Some(h)
    case MoveEvent(_, target, _) => Some(target)
    case DropConnectionEvent(h, _, _, _) => Some(h)
    case _ => None
  }

  /** Cells that come back to an empty queue. */
  function CameBack(s: Sys, e: Event): nat {
    if GivesUp(e).Some? && Held(GivesUp(e).value) in s.owners && s.pool.line.waiters == [] then 1 else 0
  }

  function LeaseTime(e: Event): Option<Ticks> {
    match e
    case GetEvent(_, _, _, leaseNow, _) => Some(leaseNow)
    case AskEvent(_, _, _, now) => Some(now)
    case _ => None
  }

  ghost function Leased(s: Sys, e: Event): nat
    requires s.pool.store.Valid()
  {
    if LeaseTime(e).Some? && !s.pool.disabled && Lease(s.pool.store, LeaseTime(e).value).1.Some? then 1 else 0
  }

  /** Cells that came back to an empty queue, less cells that were leased. */
  ghost function Net(s: Sys, es: seq<Event>): int
    requires Inv(s) && Allowed(s, es)
    decreases |es|
  {
    if es == [] then 0
    else
      StepKeepsInv(s, es[0]);
      CameBack(s, es[0]) - Leased(s, es[0]) + Net(Apply(s, es[0]), es[1..])
  }

  // ---------------------------------------------------------------------------------------
  // Idle cells are counted by what comes back and what is leased.

  /** Cells that are not in use are idle. */
  lemma IdleCounts(s: Store)
    requires s.Valid()
    ensures Idle(s) == |s.cells| - |s.used|
  {
    PartitionMeaning(s);
  }

  lemma ReturnCounts(s: Sys, h: nat, how: Strategy, now: Ticks)
    requires s.pool.store.Valid() && OwnersOk(s.owners, s.pool.store.used)
    ensures var t := ReturnStep(s, h, how, now).pool;
            && Idle(t.store) == Idle(s.pool.store) +
                 (if Held(h) in s.owners && s.pool.line.waiters == [] then 1 else 0)
            && t.disabled == s.pool.disabled
  {
    if Held(h) in s.owners {
      var c := s.owners[Held(h)].cell;
      GiveBackStore(s.pool, c, how, now);
      IdleCounts(s.pool.store);
      IdleCounts(GiveBack(s.pool, c, how, now).0.store);
    }
  }

  lemma LeaseCounts(s: Store, now: Ticks)
    requires s.Valid()
    ensures Idle(Lease(s, now).0) == Idle(s) - if Lease(s, now).1.Some? then 1 else 0
  {
    LeaseDelivers(s, now);
    IdleCounts(s);
    IdleCounts(Lease(s, now).0);
    LeaseFailsOnlyWhenAllUsed(s, now);
  }

  lemma GetCounts(s: Sys, strategy: Strategy, executor: Executor, wait: Ticks, leaseNow: Ticks, pushNow: Ticks)
    requires s.pool.store.Valid()
    ensures var t := GetStep(s, strategy, executor, wait, leaseNow, pushNow).pool;
            var leased := !s.pool.disabled && Lease(s.pool.store, leaseNow).1.Some?;
            Idle(t.store) == Idle(s.pool.store) - (if leased then 1 else 0) && t.disabled == s.pool.disabled
  {
    LeaseCounts(s.pool.store, leaseNow);
    if s.pool.disabled || Lease(s.pool.store, leaseNow).1.None? {
      NotLeasedForm(s, strategy, executor, wait, leaseNow, pushNow);
    } else {
      LeasedForm(s, strategy, executor, wait, leaseNow, pushNow, Lease(s.pool.store, leaseNow).1.value);
    }
  }

  lemma DropCounts(s: Sys, h: nat, bad: bool, idle: bool, now: Ticks)
    requires s.pool.store.Valid() && OwnersOk(s.owners, s.pool.store.used)
    ensures var t := DropConnectionStep(s, h, bad, idle, now).pool;
            && Idle(t.store) == Idle(s.pool.store) +
                 (if Held(h) in s.owners && s.pool.line.waiters == [] then 1 else 0)
            && t.disabled == s.pool.disabled
  {
    if ValueOf(s, h).Some? && (bad || !idle) {
      DropConnectionForm(s, h, bad, idle, now);
      ReturnCounts(s, h, AutoWaste, now);
    } else if Held(h) in s.owners {
      ReturnCounts(s, h, s.owners[Held(h)].strategy, now);
    }
  }

  lemma AskCounts(s: Sys, e: Event)
    requires s.pool.store.Valid() && OwnersOk(s.owners, s.pool.store.used)
    requires Enabled(s, e) && LeaseTime(e).Some?
    ensures Idle(Apply(s, e).pool.store) == Idle(s.pool.store) - Leased(s, e)
    ensures Apply(s, e).pool.disabled == s.pool.disabled
  {
    match e
    case GetEvent(strategy, executor, wait, leaseNow, pushNow) =>
      GetCounts(s, strategy, executor, wait, leaseNow, pushNow);
    case AskEvent(strategy, executor, wait, now) =>
      AskForm(s, strategy, executor, wait, now);
      GetCounts(s, strategy, executor, wait, now, now);
  }

  lemma GiveUpCounts(s: Sys, e: Event)
    requires s.pool.store.Valid() && OwnersOk(s.owners, s.pool.store.used)
    requires Enabled(s, e) && GivesUp(e).Some? && !e.DropConnectionEvent?
    ensures Idle(Apply(s, e).pool.store) == Idle(s.pool.store) + CameBack(s, e)
    ensures Apply(s, e).pool.disabled == s.pool.disabled
  {
    match e
    case ReturnEvent(h, how, now) => ReturnCounts(s, h, how, now);
    case DestroyEvent(h, now) => DestroyCounts(s, h, now);
    case MoveEvent(_, target, now) => DestroyCounts(s, target, now);
  }

  lemma OtherCounts(s: Sys, e: Event)
    requires s.pool.store.Valid() && OwnersOk(s.owners, s.pool.store.used)
    requires Enabled(s, e) && LeaseTime(e).None? && GivesUp(e).None?
    ensures Idle(Apply(s, e).pool.store) == Idle(s.pool.store)
    ensures Apply(s, e).pool.disabled == (s.pool.disabled || e.DisableEvent?)
  {
    match e
    case JoinEvent(ticket, now) => JoinForm(s, ticket, now);
    case InvalidateEvent => InvalidateCounts(s.pool.store);
    case ResetEvent(_, _, _) =>
    case DeliverEvent(_, _) =>
    case TimerEvent(_, _) =>
    case TimeoutEvent(_, _, _) =>
    case DisableEvent =>
  }

  lemma IdleStep(s: Sys, e: Event)
    requires s.pool.store.Valid() && OwnersOk(s.owners, s.pool.store.used) && Enabled(s, e)
    ensures Idle(Apply(s, e).pool.store) == Idle(s.pool.store) + CameBack(s, e) - Leased(s, e)
    ensures Apply(s, e).pool.disabled == (s.pool.disabled || e.DisableEvent?)
  {
    if LeaseTime(e).Some? {
      AskCounts(s, e);
    } else if e.DropConnectionEvent? {
      DropCounts(s, e.handle, e.bad, e.idle, e.now);
    } else if GivesUp(e).Some? {
      GiveUpCounts(s, e);
    } else {
      OtherCounts(s, e);
    }
  }

  lemma DestroyCounts(s: Sys, h: nat, now: Ticks)
    requires s.pool.store.Valid() && OwnersOk(s.owners, s.pool.store.used)
    ensures var t := DestroyStep(s, h, now).pool;
            && Idle(t.store) == Idle(s.pool.store) +
                 (if Held(h) in s.owners && s.pool.line.waiters == [] then 1 else 0)
            && t.disabled == s.pool.disabled
  {
    if Held(h) in s.owners {
      ReturnCounts(s, h, s.owners[Held(h)].strategy, now);
    }
  }

  lemma InvalidateCounts(s: Store)
    requires s.Valid()
    ensures Idle(InvalidateStore(s)) == Idle(s)
  {
    InvalidateKeepsValid(s);
  }

  lemma {:induction false} IdleRun(s: Sys, es: seq<Event>)
    requires Inv(s) && Allowed(s, es)
    ensures Idle(Run(s, es).pool.store) == Idle(s.pool.store) + Net(s, es)
    decreases |es|
  {
    if es == [] {
    } else {
      StepKeepsInv(s, es[0]);
      IdleStep(s, es[0]);
      IdleRun(Apply(s, es[0]), es[1..]);
    }
  }

  lemma {:induction false} DisabledRun(s: Sys, es: seq<Event>)
    requires Inv(s) && Allowed(s, es)
    ensures Run(s, es).pool.disabled == (s.pool.disabled || DisableEvent in es)
    decreases |es|
  {
    if es == [] {
    } else {
      StepKeepsInv(s, es[0]);
      IdleStep(s, es[0]);
      DisabledRun(Apply(s, es[0]), es[1..]);
      HeadAndTail(es);
    }
  }

  // ---------------------------------------------------------------------------------------
  // The gap.

  predicate SomeoneWaitsBesideIdle(p: PoolState) {
    p.line.waiters != [] && (p.store.available != [] || p.store.wasted != [])
  }

  predicate SomeoneWaitsInDisabled(p: PoolState) {
    p.line.waiters != [] && p.disabled
  }

  /** The first half of a `get` finds no cell and lets go of the lock in state `t`. */
  ghost predicate GapOpens(s: Sys, ask: Event, t: Sys) {
    && Inv(s) && Enabled(s, ask) && ask.AskEvent? && Undecided(s.pool, ask.wait, ask.now)
    && t == AskStep(s, ask.strategy, ask.executor, ask.wait, ask.now)
  }

  /** Then every cell is in use, the pool is enabled, and the request is about to join. */
  lemma AtTheGap(s: Sys, ask: Event, t: Sys)
    requires GapOpens(s, ask, t)
    ensures Inv(t) && s.asked in t.joining && Idle(t.pool.store) == 0 && !t.pool.disabled
  {
    AskKeepsInv(s, ask.strategy, ask.executor, ask.wait, ask.now);
    AskForm(s, ask.strategy, ask.executor, ask.wait, ask.now);
    LeaseFailsOnlyWhenAllUsed(s.pool.store, ask.now);
  }

  /**
   A request comes to the queue after events `es` in the gap. Somebody then waits beside an idle cell if and only
   if, since its own lease failed, more cells came back to an empty queue than were leased. (A queue of capacity
   zero never has anybody wait.)
   */
  lemma LateJoinExactlyWhen(s: Sys, ask: Event, t: Sys, es: seq<Event>, now: Ticks)
    requires GapOpens(s, ask, t) && Inv(t) && Allowed(t, es) && s.asked in Run(t, es).joining
    ensures SomeoneWaitsBesideIdle(JoinStep(Run(t, es), s.asked, now).pool)
       <==> Run(t, es).pool.line.capacity > 0 && Net(t, es) > 0
  {
    AtTheGap(s, ask, t);
    IdleRun(t, es);
    JoinedPool(Run(t, es), s.asked, now);
  }

  /** Somebody then waits in a disabled pool, whose queue was refused already, if and only if `disable` was in `es`. */
  lemma LateJoinDisabledExactlyWhen(s: Sys, ask: Event, t: Sys, es: seq<Event>, now: Ticks)
    requires GapOpens(s, ask, t) && Inv(t) && Allowed(t, es) && s.asked in Run(t, es).joining
    ensures SomeoneWaitsInDisabled(JoinStep(Run(t, es), s.asked, now).pool)
       <==> Run(t, es).pool.line.capacity > 0 && DisableEvent in es
  {
    AtTheGap(s, ask, t);
    DisabledRun(t, es);
    JoinedPool(Run(t, es), s.asked, now);
  }

  lemma JoinedPool(u: Sys, ticket: nat, now: Ticks)
    requires ticket in u.joining && |u.pool.line.waiters| <= u.pool.line.capacity
    ensures var p := JoinStep(u, ticket, now).pool;
            && (p.line.waiters != [] <==> u.pool.line.capacity > 0)
            && p.store == u.pool.store && p.disabled == u.pool.disabled
  {
    JoinForm(u, ticket, now);
    RearmArms(u.pool.line.(waiters := u.pool.line.waiters + [JoiningWaiter(u, ticket, now)]), multiset{});
  }

  // ---------------------------------------------------------------------------------------
  // It does happen.

  /** Some run from a pool just made leads to `t`. */
  ghost predicate Reached(t: Sys) {
    exists s, es :: LeadsTo(s, es, t)
  }

  lemma RunFirst(s: Sys, e: Event, es: seq<Event>)
    requires Inv(s) && Enabled(s, e) && Inv(Apply(s, e)) && Allowed(Apply(s, e), es)
    ensures Allowed(s, [e] + es) && Run(s, [e] + es) == Run(Apply(s, e), es)
  {
    assert ([e] + es)[1..] == es;
  }

  lemma {:induction false} RunOneMore(s: Sys, es: seq<Event>, e: Event)
    requires Inv(s) && Allowed(s, es) && Enabled(Run(s, es), e)
    ensures Allowed(s, es + [e]) && Run(s, es + [e]) == Apply(Run(s, es), e)
    decreases |es|
  {
    if es == [] {
      StepKeepsInv(s, e);
      RunFirst(s, e, []);
      assert [e] + [] == es + [e];
    } else {
      StepKeepsInv(s, es[0]);
      RunOneMore(Apply(s, es[0]), es[1..], e);
      RunFirst(s, es[0], es[1..] + [e]);
      HeadAndTail(es);
      Regroup([es[0]], es[1..], [e]);
    }
  }

  lemma AfterOneMore(s: Sys, es: seq<Event>, e: Event)
    requires FromStart(s, es) && Enabled(After(s, es), e)
    ensures FromStart(s, es + [e]) && After(s, es + [e]) == Apply(After(s, es), e)
  {
    InitInv(s);
    RunOneMore(s, es, e);
  }

  /** `es` from `s` leads to `t`. */
  ghost predicate LeadsTo(s: Sys, es: seq<Event>, t: Sys) {
    FromStart(s, es) && t == After(s, es)
  }

  lemma ReachedStep(t: Sys, e: Event)
    requires Reached(t) && Enabled(t, e)
    ensures Inv(t) && Reached(Apply(t, e)) && Inv(Apply(t, e))
  {
    var s, es :| LeadsTo(s, es, t);
    AfterOneMore(s, es, e);
    assert LeadsTo(s, es + [e], Apply(t, e));
  }

  /** A pool just made, with one cell and room for one in the queue. */
  const ONE_CELL := Store(10, 10, map[0 := Cell(None, MAX_TICKS, 0, false)], [], [], [0])
  const FRESH := AtStart(ONE_CELL, 1, 0, History(0, map[], map[], map[]), {})

  lemma FreshReached()
    ensures Init(FRESH) && Inv(FRESH) && Reached(FRESH)
  {
    assert multiset(ONE_CELL.cells.Keys) == multiset{0};
    assert ONE_CELL.Valid();
    EmptyPoolInit(ONE_CELL, 1, 0);
    InitInv(FRESH);
    assert LeadsTo(FRESH, [], FRESH);
  }

  /** The only cell is held by handle 0, and nobody waits. */
  ghost predicate AllHeld(t: Sys) {
    && Inv(t) && t.clock == 0 && t.asked == 1 && t.joining == map[] && t.pool.line.capacity == 1
    && t.pool.line.waiters == [] && !t.pool.disabled
    && t.pool.store.available == [] && t.pool.store.used == [0] && t.pool.store.wasted == []
    && Held(0) in t.owners && t.owners[Held(0)].cell == 0
    && t.pool.store.Has(0) && IsValid(t.pool.store, 0, 0)
  }

  /** The first request gets the cell. */
  lemma LeasedFirst(strategy: Strategy, executor: Executor) returns (u: Sys)
    ensures Reached(u) && Inv(u) && u.clock == 0 && u.asked == 1 && u.joining == map[] && u.pool.line.capacity == 1
    ensures u.pool.line.waiters == [] && !u.pool.disabled && u.owners == map[InFlight(0) := Owned(0, strategy)]
    ensures u.pool.store == Lease(ONE_CELL, 0).0
  {
    var ask := AskEvent(strategy, executor, 1, 0);
    FreshReached();
    ReachedStep(FRESH, ask);
    OneCellLeased();
    LeasedForm(FRESH, strategy, executor, 1, 0, 0, 0);
    AskForm(FRESH, strategy, executor, 1, 0);
    u := Apply(FRESH, ask);
  }

  lemma OneCellLeased()
    ensures ONE_CELL.Valid() && Lease(ONE_CELL, 0).1 == Some(0)
    ensures var b := Lease(ONE_CELL, 0).0;
            b.available == [] && b.used == [0] && b.wasted == [] && b.Has(0) && IsValid(b, 0, 0)
  {
    assert multiset(ONE_CELL.cells.Keys) == multiset{0};
    assert ONE_CELL.Valid();
    LeaseDelivers(ONE_CELL, 0);
    LeaseTouches(ONE_CELL, 0, 0);
    LeaseCounts(ONE_CELL, 0);
  }

  /** It is delivered to handle 0. */
  lemma HeldReached(strategy: Strategy, executor: Executor) returns (t: Sys)
    ensures Reached(t) && AllHeld(t)
  {
    var u := LeasedFirst(strategy, executor);
    OneCellLeased();
    ReachedStep(u, DeliverEvent(0, 0));
    t := Apply(u, DeliverEvent(0, 0));
  }

  /** The second request finds no cell and lets go of the lock. */
  lemma GapReached(t: Sys, strategy: Strategy, executor: Executor) returns (u: Sys)
    requires Reached(t) && AllHeld(t)
    ensures Reached(u) && Inv(u) && u.pool == t.pool && u.owners == t.owners && u.clock == 0 && 1 in u.joining
  {
    var ask := AskEvent(strategy, executor, 1, 0);
    LeaseFailsOnlyWhenAllUsed(t.pool.store, 0);
    AskForm(t, strategy, executor, 1, 0);
    ReachedStep(t, ask);
    u := Apply(t, ask);
  }

  /** A run: the only cell comes back between the halves and finds nobody waiting yet; then the request joins. */
  lemma LateJoinHappens(strategy: Strategy, executor: Executor)
    ensures exists t :: Reached(t) && SomeoneWaitsBesideIdle(t.pool)
  {
    var held := HeldReached(strategy, executor);
    var gap := GapReached(held, strategy, executor);
    var back := ReturnEvent(0, AutoRecycle, 0);
    ReachedStep(gap, back);
    var u := Apply(gap, back);
    assert u.pool.store.available == [0] && u.joining == gap.joining && u.pool.line == gap.pool.line;
    ReachedStep(u, JoinEvent(1, 0));
    JoinedPool(u, 1, 0);
    var t := Apply(u, JoinEvent(1, 0));
    assert Reached(t) && SomeoneWaitsBesideIdle(t.pool);
  }

  /** Another: the pool is disabled between the halves, and then the request joins its queue. */
  lemma LateJoinDisabledHappens(strategy: Strategy, executor: Executor)
    ensures exists t :: Reached(t) && SomeoneWaitsInDisabled(t.pool)
  {
    var held := HeldReached(strategy, executor);
    var gap := GapReached(held, strategy, executor);
    ReachedStep(gap, DisableEvent);
    var u := Apply(gap, DisableEvent);
    ReachedStep(u, JoinEvent(1, 0));
    JoinedPool(u, 1, 0);
    var t := Apply(u, JoinEvent(1, 0));
    assert Reached(t) && SomeoneWaitsInDisabled(t.pool);
  }
}
