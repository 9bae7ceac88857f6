/** What single steps of a run mean for those who wait for a cell, give one back, or hold one. */
module PoolSteps {
  import opened Basics
  import opened TimeTraits
  import opened Storage
  import opened WaitQueues
  import opened Pools
  import opened PoolRuns

  /** The step answers request `id` with `outcome` and does nothing else to the record. */
  ghost predicate Answers(s: Sys, t: Sys, id: nat, outcome: Outcome) {
    t.log == s.log + [Record(id, outcome)]
  }

  /**
   * How `get` answers: a closed pool refuses; a cell that is not in use is granted; with all in use somebody who would
   * not wait is refused, and so is whom the queue has no room for; anybody else is the last to wait, until the time
   * given is over. A request that gets no cell leaves the cells as they were.
   */
  lemma GetAnswers(s: Sys, strategy: Strategy, executor: Executor, wait: Ticks, leaseNow: Ticks, pushNow: Ticks)
    requires s.pool.store.Valid()
    ensures var t := GetStep(s, strategy, executor, wait, leaseNow, pushNow);
            var line := s.pool.line;
            if s.pool.disabled then Answers(s, t, s.issued, Refused(Disabled)) && t.pool == s.pool
            else if |s.pool.store.used| < |s.pool.store.cells| then
              && |t.log| == |s.log| + 1 && s.log <= t.log && t.log[|s.log|].request == s.issued
              && t.log[|s.log|].outcome.Grant? && t.log[|s.log|].outcome.cell !in s.pool.store.used
              && t.pool.store.used == s.pool.store.used + [t.log[|s.log|].outcome.cell]
              && t.pool.line == line
            else if wait == 0 then Answers(s, t, s.issued, Refused(GetResourceTimeout)) && t.pool == s.pool
            else if |line.waiters| >= line.capacity then
              Answers(s, t, s.issued, Refused(RequestQueueOverflow)) && t.pool == s.pool
            else
              && t.log == s.log && t.pool.store == s.pool.store && t.pool.line.capacity == line.capacity
              && t.pool.line.waiters
              == line.waiters + [Waiter(Request(s.issued, strategy), executor, Clamp(pushNow + wait))]
  {
    LeaseFailsOnlyWhenAllUsed(s.pool.store, leaseNow);
    PartitionMeaning(s.pool.store);
    if s.pool.disabled || Lease(s.pool.store, leaseNow).1.None? {
      NotLeasedForm(s, strategy, executor, wait, leaseNow, pushNow);
    } else {
      LeasedForm(s, strategy, executor, wait, leaseNow, pushNow, Lease(s.pool.store, leaseNow).1.value);
      LeaseDelivers(s.pool.store, leaseNow);
    }
  }

  /** A cell may be given out again with its value: it comes back to be recycled, unmarked, its life not over. */
  predicate ReturnsGood(s: Store, c: CellId, how: Strategy, now: Ticks)
    requires c in s.cells
  {
    how == AutoRecycle && !s.cells[c].wasteOnRecycle && now < Clamp(s.cells[c].resetTime + s.lifespan)
  }

  /**
   * A cell that comes back while somebody waits goes to the one who has waited longest, at once: with its value if that
   * is good, empty otherwise. Nothing else is granted, and no other cell changes.
   */
  lemma FirstWaiterIsServed(s: Sys, h: nat, how: Strategy, now: Ticks)
    requires s.pool.store.Valid() && OwnersOk(s.owners, s.pool.store.used)
    requires Held(h) in s.owners && s.pool.line.waiters != [] && s.owners[Held(h)].cell in s.pool.store.cells
    ensures var t, c, first := ReturnStep(s, h, how, now), s.owners[Held(h)].cell, s.pool.line.waiters[0];
            var value := if ReturnsGood(s.pool.store, c, how, now) then s.pool.store.cells[c].value else None;
            && |t.log| == |s.log| + 1 && s.log <= t.log
            && t.log[|s.log|].request == first.request.id
            && t.log[|s.log|].outcome.Grant?
            && t.log[|s.log|].outcome.cell == c && t.log[|s.log|].outcome.value == value
            && OthersKept(s.pool.store, t.pool.store, c)
            && t.pool.store.cells[c] == s.pool.store.cells[c].(value := value)
            && t.pool.store.available == s.pool.store.available && t.pool.store.wasted == s.pool.store.wasted
            && t.pool.line.waiters == s.pool.line.waiters[1..]
            && Held(h) !in t.owners && InFlight(first.request.id) in t.owners
            && t.owners[InFlight(first.request.id)] == Owned(c, first.request.strategy)
  {
    UsedIsApart(s.pool.store, s.owners[Held(h)].cell);
  }

  /** A cell that comes back while nobody waits is the last idle one, if its value is good, and wasted otherwise. */
  lemma NobodyIsServed(s: Sys, h: nat, how: Strategy, now: Ticks)
    requires s.pool.store.Valid() && OwnersOk(s.owners, s.pool.store.used)
    requires Held(h) in s.owners && s.pool.line.waiters == [] && s.owners[Held(h)].cell in s.pool.store.cells
    ensures var a, t, c := s.pool.store, ReturnStep(s, h, how, now), s.owners[Held(h)].cell;
            && t.log == s.log && t.pool.line == s.pool.line && t.owners == s.owners - {Held(h)}
            && c in t.pool.store.cells && OthersKept(a, t.pool.store, c)
            && if ReturnsGood(a, c, how, now) then
                 && t.pool.store.available == a.available + [c] && t.pool.store.wasted == a.wasted
                 && t.pool.store.cells[c].value == a.cells[c].value
               else
                 && t.pool.store.available == a.available && t.pool.store.wasted == a.wasted + [c]
                 && t.pool.store.cells[c].value == None
  {
    RecycleMeaning(s.pool.store, s.owners[Held(h)].cell, now);
    WasteMeaning(s.pool.store, s.owners[Held(h)].cell);
  }

  /** A handle that has no cell gives nothing back. */
  lemma UnusableReturnsNothing(s: Sys, h: nat, how: Strategy, now: Ticks)
    requires s.pool.store.Valid() && OwnersOk(s.owners, s.pool.store.used) && Held(h) !in s.owners
    ensures ReturnStep(s, h, how, now) == s.(clock := now) && DestroyStep(s, h, now) == s.(clock := now)
  {
  }

  /**
   * A handle that ends gives its cell back the way it was granted. A connection that ends does too, if it is good and
   * its transaction is over; otherwise its cell is given back to be wasted.
   */
  lemma EndsAsGranted(s: Sys, h: nat, bad: bool, idle: bool, now: Ticks)
    requires s.pool.store.Valid() && OwnersOk(s.owners, s.pool.store.used)
    requires Held(h) in s.owners && s.owners[Held(h)].cell in s.pool.store.cells
    ensures var c := s.owners[Held(h)].cell;
            var how := s.owners[Held(h)].strategy;
            && DestroyStep(s, h, now) == ReturnStep(s, h, how, now)
            && (s.pool.store.Filled(c) && (bad || !idle) ==>
                  DropConnectionStep(s, h, bad, idle, now)
                  == ReturnStep(s, h, AutoWaste, now).(condemned := s.condemned + {s.pool.store.cells[c].value.value}))
            && (!s.pool.store.Filled(c) || (!bad && idle) ==>
                  DropConnectionStep(s, h, bad, idle, now) == ReturnStep(s, h, how, now))
  {
    if ValueOf(s, h).Some? && (bad || !idle) {
      DropConnectionForm(s, h, bad, idle, now);
    }
  }

  /**
   * A handle that is moved to takes over the cell and the strategy of the other, which has none any more; the cell it
   * had before goes back the way it was granted. From a handle without a cell, nothing is taken over.
   */
  lemma MoveTakesOver(s: Sys, source: nat, target: nat, now: Ticks)
    requires s.pool.store.Valid() && OwnersOk(s.owners, s.pool.store.used) && source != target
    ensures var t, back := MoveStep(s, source, target, now), DestroyStep(s, target, now);
            && t.pool == back.pool && t.log == back.log && t.past == back.past
            && (Held(source) in s.owners ==>
                  && Held(target) in t.owners && t.owners[Held(target)] == s.owners[Held(source)]
                  && t.owners - {Held(target)} == back.owners - {Held(source)})
            && (Held(source) !in s.owners ==> t == back && Held(target) !in t.owners)
  {
    if Held(target) in s.owners {
      ReturnDrops(s, target, s.owners[Held(target)].strategy, now);
    }
    var back := DestroyStep(s, target, now);
    assert Held(source) in s.owners <==> Held(source) in back.owners;
    if Held(source) in s.owners {
      assert back.owners[Held(source)] == s.owners[Held(source)];
      assert Held(target) !in back.owners;
    }
  }

  /** Closing the pool refuses everybody who waits, in the order they came, and touches no cell. */
  lemma DisableRefusesAll(s: Sys)
    ensures var t := DisableStep(s);
            && t.pool.disabled && t.pool.line.waiters == [] && t.pool.store == s.pool.store && t.owners == s.owners
            && |t.log| == |s.log| + |s.pool.line.waiters| && s.log <= t.log
            && forall i :: 0 <= i < |s.pool.line.waiters| ==>
                 t.log[|s.log| + i] == Record(s.pool.line.waiters[i].request.id, Refused(Disabled))
  {
  }

  /** A new value goes into the cell its handle has; the mark and the drop time stay, and so does every other cell. */
  lemma ResetMeaning(s: Sys, h: nat, v: Resource, now: Ticks)
    requires s.pool.store.Valid() && OwnersOk(s.owners, s.pool.store.used)
    requires Held(h) in s.owners && s.owners[Held(h)].cell in s.pool.store.cells
    ensures var a, t, c := s.pool.store, ResetStep(s, h, v, now), s.owners[Held(h)].cell;
            && OthersKept(a, t.pool.store, c) && t.log == s.log && t.owners == s.owners && t.pool.line == s.pool.line
            && t.pool.store.available == a.available && t.pool.store.used == a.used && t.pool.store.wasted == a.wasted
            && t.pool.store.cells[c] == Cell(Some(v), a.cells[c].dropTime, now, a.cells[c].wasteOnRecycle)
  {
    UsedIsApart(s.pool.store, s.owners[Held(h)].cell);
  }

  /** A timer that runs late still times out exactly who is due by then: they leave the queue, the others stay. */
  lemma DueTimeOut(s: Sys, at: Ticks, posted: seq<Waiter>, now: Ticks, w: Waiter)
    requires TimesOut(s.pool.line.waiters, at, posted)
    ensures w in posted <==> w in s.pool.line.waiters && w.expiresAt <= at
    ensures w in TimeoutStep(s, at, posted, now).pool.line.waiters <==> w in s.pool.line.waiters && w.expiresAt > at
  {
    var ws := s.pool.line.waiters;
    assert w in multiset(ws) <==> w in multiset(posted) || w in multiset(Pending(ws, at));
    RearmArms(s.pool.line.(waiters := Pending(ws, at)), multiset{});
  }

  /** Each of them is told so, in the order they are posted in, and no cell is touched. */
  lemma TimeoutsAreTold(s: Sys, at: Ticks, posted: seq<Waiter>, now: Ticks)
    ensures var t := TimeoutStep(s, at, posted, now);
            && t.pool.store == s.pool.store && t.owners == s.owners
            && |t.log| == |s.log| + |posted| && s.log <= t.log
            && forall i :: 0 <= i < |posted| ==>
                 t.log[|s.log| + i] == Record(posted[i].request.id, TimedOut(posted[i].expiresAt, now))
  {
  }
}
