/** What the pool is for: a value that comes back good is given out again. */
module PoolReuse {
  import opened Basics
  import opened TimeTraits
  import opened Storage
  import opened WaitQueues
  import opened Pools
  import opened PoolRuns
  import opened PoolTheorems
  import opened PoolGrain
  import opened PoolSteps

  /** A cell that is idle stays where it is, ahead of those that become idle later. */
  ghost predicate IdleKept(a: Store, b: Store) {
    && a.available <= b.available
    && forall c :: c in a.available && c in a.cells ==> c in b.cells && b.cells[c] == a.cells[c]
  }

  lemma ReturnKeepsIdle(s: Sys, h: nat, how: Strategy, now: Ticks)
    requires s.pool.store.Valid() && OwnersOk(s.owners, s.pool.store.used)
    ensures IdleKept(s.pool.store, ReturnStep(s, h, how, now).pool.store)
  {
    if Held(h) in s.owners {
      var c := s.owners[Held(h)].cell;
      GiveBackStore(s.pool, c, how, now);
      var t := GiveBack(s.pool, c, how, now).0.store;
      assert s.pool.store.available <= t.available;
      forall d | d in s.pool.store.available && d in s.pool.store.cells
        ensures d in t.cells && t.cells[d] == s.pool.store.cells[d]
      {
        assert SameCell(s.pool.store, t, d);
      }
    }
  }

  lemma DestroyKeepsIdle(s: Sys, h: nat, now: Ticks)
    requires s.pool.store.Valid() && OwnersOk(s.owners, s.pool.store.used)
    ensures IdleKept(s.pool.store, DestroyStep(s, h, now).pool.store)
  {
    if Held(h) in s.owners {
      ReturnKeepsIdle(s, h, s.owners[Held(h)].strategy, now);
    }
  }

  lemma DropKeepsIdle(s: Sys, h: nat, bad: bool, idle: bool, now: Ticks)
    requires s.pool.store.Valid() && OwnersOk(s.owners, s.pool.store.used)
    ensures IdleKept(s.pool.store, DropConnectionStep(s, h, bad, idle, now).pool.store)
  {
    if ValueOf(s, h).Some? && (bad || !idle) {
      DropConnectionForm(s, h, bad, idle, now);
      ReturnKeepsIdle(s, h, AutoWaste, now);
    } else {
      DestroyKeepsIdle(s, h, now);
    }
  }

  lemma ResetKeepsIdle(s: Sys, h: nat, v: Resource, now: Ticks)
    requires s.pool.store.Valid() && OwnersOk(s.owners, s.pool.store.used)
    ensures IdleKept(s.pool.store, ResetStep(s, h, v, now).pool.store)
  {
    if Held(h) in s.owners {
      UsedIsApart(s.pool.store, s.owners[Held(h)].cell);
    }
  }

  /** Only leases and invalidations touch idle cells. */
  lemma OtherStepKeepsIdle(s: Sys, e: Event)
    requires s.pool.store.Valid() && OwnersOk(s.owners, s.pool.store.used)
    requires Enabled(s, e) && LeaseTime(e).None? && e != InvalidateEvent
    ensures IdleKept(s.pool.store, Apply(s, e).pool.store)
  {
    match e
    case ReturnEvent(h, how, now) => ReturnKeepsIdle(s, h, how, now);
    case DestroyEvent(h, now) => DestroyKeepsIdle(s, h, now);
    case MoveEvent(_, target, now) => DestroyKeepsIdle(s, target, now);
    case DropConnectionEvent(h, bad, idle, now) => DropKeepsIdle(s, h, bad, idle, now);
    case ResetEvent(h, v, now) => ResetKeepsIdle(s, h, v, now);
    case JoinEvent(ticket, now) => JoinForm(s, ticket, now);
    case DeliverEvent(_, _) =>
    case TimerEvent(_, _) =>
    case TimeoutEvent(_, _, _) =>
    case DisableEvent =>
  }

  // ---------------------------------------------------------------------------------------
  // Leases

  /** Between `s` and `t` the cell was granted with that value in it. */
  ghost predicate GrantedSince(s: Sys, t: Sys, c: CellId, value: Option<Resource>) {
    exists i :: |s.log| <= i < |t.log| && t.log[i].outcome.Grant?
                && t.log[i].outcome.cell == c && t.log[i].outcome.value == value
  }

  /** Cell `c` is idle with content `w`, and at most `p` idle cells are ahead of it. */
  ghost predicate IdleWithin(s: Store, c: CellId, w: Cell, p: int) {
    exists q :: 0 <= q < |s.available| && q <= p && s.available[q] == c && c in s.cells && s.cells[c] == w
  }

  /** A cell that is live at the time of a lease is leased, or at least one cell ahead of it goes. */
  lemma LeaseAdvances(s: Store, now: Ticks, q: nat)
    requires s.Valid() && q < |s.available| && s.cells[s.available[q]].dropTime > now
    ensures var (t, r) := Lease(s, now);
            var c := s.available[q];
            && t.Has(c) && t.cells[c] == s.cells[c]
            && (r == Some(c) || (r.Some? && IdleWithin(t, c, s.cells[c], q - 1)))
  {
    var c, k := s.available[q], FirstLive(s.cells, s.available, now);
    LiveIdleIsLeased(s, now, k);
    PartitionMeaning(s);
    if k < q {
      var (t, _) := Lease(s, now);
      assert t.available[q - k - 1] == c;
    }
    assert c !in s.available[..k];
  }

  lemma GetAdvances(
    s: Sys, strategy: Strategy, executor: Executor, wait: Ticks, leaseNow: Ticks, pushNow: Ticks, q: nat)
    requires s.pool.store.Valid() && !s.pool.disabled
    requires q < |s.pool.store.available| && s.pool.store.cells[s.pool.store.available[q]].dropTime > leaseNow
    ensures var t := GetStep(s, strategy, executor, wait, leaseNow, pushNow);
            var c := s.pool.store.available[q];
            var w := s.pool.store.cells[c];
            GrantedSince(s, t, c, w.value) || IdleWithin(t.pool.store, c, w, q - 1)
  {
    LeaseAdvances(s.pool.store, leaseNow, q);
    var r := Lease(s.pool.store, leaseNow).1.value;
    LeasedForm(s, strategy, executor, wait, leaseNow, pushNow, r);
    var t := GetStep(s, strategy, executor, wait, leaseNow, pushNow);
    assert t.log[|s.log|] == LeaseRecord(s, r, leaseNow);
  }

  lemma GetRefused(s: Sys, strategy: Strategy, executor: Executor, wait: Ticks, leaseNow: Ticks, pushNow: Ticks)
    requires s.pool.store.Valid() && s.pool.disabled
    ensures GetStep(s, strategy, executor, wait, leaseNow, pushNow).pool.store == s.pool.store
  {
    NotLeasedForm(s, strategy, executor, wait, leaseNow, pushNow);
  }

  // ---------------------------------------------------------------------------------------
  // Runs

  /** A call of `get` that the pool is not closed to. */
  function Went(s: Sys, e: Event): nat {
    if LeaseTime(e).Some? && !s.pool.disabled then 1 else 0
  }

  /** The number of such calls in the run. */
  ghost function Asked(s: Sys, es: seq<Event>): nat
    requires Inv(s) && Allowed(s, es)
    decreases |es|
  {
    if es == [] then 0
    else
      StepKeepsInv(s, es[0]);
      Went(s, es[0]) + Asked(Apply(s, es[0]), es[1..])
  }

  /** No invalidation, and every call of `get` comes before `drop`. */
  predicate Undisturbed(es: seq<Event>, drop: Ticks) {
    forall i :: 0 <= i < |es| ==>
      es[i] != InvalidateEvent && (LeaseTime(es[i]).Some? ==> LeaseTime(es[i]).value < drop)
  }

  lemma UndisturbedLater(es: seq<Event>, drop: Ticks)
    requires es != [] && Undisturbed(es, drop)
    ensures Undisturbed(es[1..], drop)
  {
  }

  /** One step of the wait of an idle value. */
  lemma StepAdvances(s: Sys, e: Event, q: nat)
    requires s.pool.store.Valid() && OwnersOk(s.owners, s.pool.store.used) && Enabled(s, e)
    requires q < |s.pool.store.available| && e != InvalidateEvent
    requires LeaseTime(e).Some? ==> LeaseTime(e).value < s.pool.store.cells[s.pool.store.available[q]].dropTime
    ensures var t := Apply(s, e);
            var c := s.pool.store.available[q];
            var w := s.pool.store.cells[c];
            GrantedSince(s, t, c, w.value) || IdleWithin(t.pool.store, c, w, q - Went(s, e))
  {
    if LeaseTime(e).None? {
      OtherStepKeepsIdle(s, e);
      assert Apply(s, e).pool.store.available[q] == s.pool.store.available[q];
    } else if e.GetEvent? {
      if s.pool.disabled {
        GetRefused(s, e.strategy, e.executor, e.wait, e.leaseNow, e.pushNow);
      } else {
        GetAdvances(s, e.strategy, e.executor, e.wait, e.leaseNow, e.pushNow, q);
      }
    } else {
      AskForm(s, e.strategy, e.executor, e.wait, e.now);
      if s.pool.disabled {
        GetRefused(s, e.strategy, e.executor, e.wait, e.now, e.now);
      } else {
        GetAdvances(s, e.strategy, e.executor, e.wait, e.now, e.now, q);
      }
    }
  }

  lemma GrantedEarlier(s: Sys, t: Sys, u: Sys, c: CellId, value: Option<Resource>)
    requires s.log <= t.log && t.log <= u.log
    requires GrantedSince(s, t, c, value) || GrantedSince(t, u, c, value)
    ensures GrantedSince(s, u, c, value)
  {
    if GrantedSince(s, t, c, value) {
      var i :| |s.log| <= i < |t.log| && t.log[i].outcome.Grant?
               && t.log[i].outcome.cell == c && t.log[i].outcome.value == value;
      assert u.log[i] == t.log[i];
    } else {
      var i :| |t.log| <= i < |u.log| && u.log[i].outcome.Grant?
               && u.log[i].outcome.cell == c && u.log[i].outcome.value == value;
    }
  }

  /** Since `s` the cell was granted with its value, or it is still idle with at most `p` cells ahead. */
  ghost predicate Reused(s: Sys, t: Sys, c: CellId, w: Cell, p: int) {
    GrantedSince(s, t, c, w.value) || IdleWithin(t.pool.store, c, w, p)
  }

  lemma ReusedEarlier(s: Sys, t: Sys, u: Sys, c: CellId, w: Cell, p: int, more: int)
    requires s.log <= t.log && t.log <= u.log && Reused(t, u, c, w, p) && p <= more
    ensures Reused(s, u, c, w, more)
  {
    if GrantedSince(t, u, c, w.value) {
      GrantedEarlier(s, t, u, c, w.value);
    }
  }

  lemma PlaceOf(s: Store, c: CellId, w: Cell, p: int) returns (q: nat)
    requires IdleWithin(s, c, w, p)
    ensures q < |s.available| && q <= p && s.available[q] == c && c in s.cells && s.cells[c] == w
  {
    q :| 0 <= q < |s.available| && q <= p && s.available[q] == c && c in s.cells && s.cells[c] == w;
  }

  /**
   * A value that is idle, as long as it is neither invalidated nor past its drop time when somebody asks, is granted
   * or moves up by one place at least with every call of `get`.
   */
  lemma {:induction false} IdleIsReused(s: Sys, es: seq<Event>, c: CellId, w: Cell, q: nat)
    requires Inv(s) && Allowed(s, es) && Undisturbed(es, w.dropTime)
    requires q < |s.pool.store.available| && s.pool.store.available[q] == c
    requires c in s.pool.store.cells && s.pool.store.cells[c] == w
    ensures Reused(s, Run(s, es), c, w, q - Asked(s, es))
    decreases |es|
  {
    if es == [] {
    } else {
      var t := Apply(s, es[0]);
      StepKeepsInv(s, es[0]);
      StepAdvances(s, es[0], q);
      StepExtends(s, es[0]);
      RunExtends(t, es[1..]);
      if GrantedSince(s, t, c, w.value) {
        GrantedEarlier(s, t, Run(s, es), c, w.value);
      } else {
        var p := PlaceOf(t.pool.store, c, w, q - Went(s, es[0]));
        UndisturbedLater(es, w.dropTime);
        IdleIsReused(t, es[1..], c, w, p);
        ReusedEarlier(s, t, Run(s, es), c, w, p - Asked(t, es[1..]), q - Asked(s, es));
      }
    }
  }

  /** Handle `h` has a cell whose value is good at `now`: not marked, its life not over. */
  ghost predicate HoldsGood(s: Sys, h: nat, now: Ticks) {
    && Held(h) in s.owners && s.owners[Held(h)].cell in s.pool.store.cells
    && var w := s.pool.store.cells[s.owners[Held(h)].cell];
       !w.wasteOnRecycle && now < Clamp(w.resetTime + s.pool.store.lifespan)
  }

  lemma ReturnedIsIdle(s: Sys, h: nat, now: Ticks)
    requires s.pool.store.Valid() && OwnersOk(s.owners, s.pool.store.used)
    requires HoldsGood(s, h, now) && s.pool.line.waiters == []
    ensures var a, b, c := s.pool.store, ReturnStep(s, h, AutoRecycle, now).pool.store, s.owners[Held(h)].cell;
            && b.available == a.available + [c] && c in b.cells && b.cells[c].value == a.cells[c].value
            && (b.cells[c].dropTime == Clamp(now + a.idleTimeout) ||
                b.cells[c].dropTime == Clamp(a.cells[c].resetTime + a.lifespan))
            && ReturnStep(s, h, AutoRecycle, now).log == s.log
  {
    RecycleMeaning(s.pool.store, s.owners[Held(h)].cell, now);
  }

  lemma NotIdleAnyMore(s: Sys, t: Sys, c: CellId, w: Cell, p: int)
    requires Reused(s, t, c, w, p) && p < 0
    ensures GrantedSince(s, t, c, w.value)
  {
  }

  lemma LastIsReused(s: Sys, es: seq<Event>, c: CellId, w: Cell)
    requires Inv(s) && Allowed(s, es) && Undisturbed(es, w.dropTime) && c in s.pool.store.cells
    requires s.pool.store.available != [] && s.pool.store.available[|s.pool.store.available| - 1] == c
    requires s.pool.store.cells[c] == w && Asked(s, es) >= |s.pool.store.available|
    ensures GrantedSince(s, Run(s, es), c, w.value)
  {
    IdleIsReused(s, es, c, w, |s.pool.store.available| - 1);
    NotIdleAnyMore(s, Run(s, es), c, w, |s.pool.store.available| - 1 - Asked(s, es));
  }

  /** The cell comes back to be recycled: the handle says so, or it or its connection, being good, ends granted so. */
  predicate ComesBack(s: Sys, e: Event, h: nat, now: Ticks) {
    || e == ReturnEvent(h, AutoRecycle, now)
    || (&& Held(h) in s.owners && s.owners[Held(h)].strategy == AutoRecycle
        && (e == DestroyEvent(h, now) || e == DropConnectionEvent(h, false, true, now)))
  }

  lemma ComesBackRecycled(s: Sys, e: Event, h: nat, now: Ticks)
    requires s.pool.store.Valid() && OwnersOk(s.owners, s.pool.store.used) && Enabled(s, e)
    requires HoldsGood(s, h, now) && ComesBack(s, e, h, now)
    ensures Apply(s, e) == ReturnStep(s, h, AutoRecycle, now)
  {
    EndsAsGranted(s, h, false, true, now);
  }

  /**
   * A value is returned good while nobody waits. If the pool is not invalidated, and everybody who asks does so before
   * the idle time and the life of the value are over, then it is granted again, at the latest to the one who asks
   * after as many as there were idle cells.
   */
  lemma ReturnedIsReused(s: Sys, h: nat, now: Ticks, es: seq<Event>)
    requires Inv(s) && HoldsGood(s, h, now) && s.pool.line.waiters == []
    requires es != [] && ComesBack(s, es[0], h, now) && Allowed(s, es)
    requires Undisturbed(es, Clamp(now + s.pool.store.idleTimeout))
    requires var c := s.owners[Held(h)].cell;
             Undisturbed(es, Clamp(s.pool.store.cells[c].resetTime + s.pool.store.lifespan))
    requires Asked(s, es) > |s.pool.store.available|
    ensures var c := s.owners[Held(h)].cell; GrantedSince(s, Run(s, es), c, s.pool.store.cells[c].value)
  {
    var t, c := Apply(s, es[0]), s.owners[Held(h)].cell;
    StepKeepsInv(s, es[0]);
    ComesBackRecycled(s, es[0], h, now);
    ReturnedIsIdle(s, h, now);
    UndisturbedLater(es, t.pool.store.cells[c].dropTime);
    LastIsReused(t, es[1..], c, t.pool.store.cells[c]);
  }
}
