/** What holds along every run of the pool, whatever its users, its clock and its timers do. */
module PoolTheorems {
  import opened Basics
  import opened TimeTraits
  import opened Storage
  import opened WaitQueues
  import opened Pools
  import opened PoolRuns

  /** The events of `es` can happen one after the other from `s`. */
  ghost predicate Allowed(s: Sys, es: seq<Event>)
    requires Inv(s)
    decreases |es|
  {
    es == [] || (Enabled(s, es[0]) && (StepKeepsInv(s, es[0]); Allowed(Apply(s, es[0]), es[1..])))
  }

  /** The state after the events of `es`. */
  ghost function Run(s: Sys, es: seq<Event>): (t: Sys)
    requires Inv(s) && Allowed(s, es)
    ensures Inv(t)
    decreases |es|
  {
    if es == [] then s
    else
      StepKeepsInv(s, es[0]);
      Run(Apply(s, es[0]), es[1..])
  }

  /** A run from a pool just made, and the state it leads to. */
  ghost predicate FromStart(s: Sys, es: seq<Event>) {
    Init(s) && (InitInv(s); Allowed(s, es))
  }

  ghost function After(s: Sys, es: seq<Event>): (t: Sys)
    requires FromStart(s, es)
    ensures Inv(t)
  {
    InitInv(s);
    Run(s, es)
  }

  // ---------------------------------------------------------------------------------------
  // What a step does to the past.

  /** The part of the invariant that the steps need to be defined and to keep condemned values away. */
  ghost predicate Sound(s: Sys) {
    && s.pool.store.Valid() && OwnersOk(s.owners, s.pool.store.used)
    && ValuesOk(s.pool.store, s.seen, s.condemned)
  }

  /** A record made by a step shows a value that was not condemned before the step. */
  predicate LiveRecord(e: Record, condemned: set<Resource>) {
    e.outcome.Grant? && e.outcome.value.Some? ==> e.outcome.value.value !in condemned
  }

  /** The record only grows, condemned values stay condemned, and the cells stay the same cells. */
  ghost predicate Extends(s: Sys, t: Sys) {
    && s.log <= t.log
    && s.condemned <= t.condemned
    && t.pool.store.cells.Keys == s.pool.store.cells.Keys
    && (forall i :: |s.log| <= i < |t.log| ==> LiveRecord(t.log[i], s.condemned))
  }

  lemma ExtendsTransitive(a: Sys, b: Sys, c: Sys)
    requires Extends(a, b) && Extends(b, c)
    ensures Extends(a, c)
  {
    forall i | |a.log| <= i < |c.log| ensures LiveRecord(c.log[i], a.condemned) {
      assert i < |b.log| ==> c.log[i] == b.log[i];
    }
  }

  lemma GetExtends(s: Sys, strategy: Strategy, executor: Executor, wait: Ticks, leaseNow: Ticks, pushNow: Ticks)
    requires s.pool.store.Valid() && ValuesOk(s.pool.store, s.seen, s.condemned)
    ensures Extends(s, GetStep(s, strategy, executor, wait, leaseNow, pushNow))
  {
    if s.pool.disabled || Lease(s.pool.store, leaseNow).1.None? {
      NotLeasedForm(s, strategy, executor, wait, leaseNow, pushNow);
    } else {
      LeasedForm(s, strategy, executor, wait, leaseNow, pushNow, Lease(s.pool.store, leaseNow).1.value);
      LeasedExtends(s, strategy, leaseNow, pushNow, Lease(s.pool.store, leaseNow).1.value);
    }
  }

  lemma LeasedExtends(s: Sys, strategy: Strategy, leaseNow: Ticks, clock: Ticks, c: CellId)
    requires s.pool.store.Valid() && ValuesOk(s.pool.store, s.seen, s.condemned)
    requires Lease(s.pool.store, leaseNow).1 == Some(c)
    ensures Lease(s.pool.store, leaseNow).0.Has(c) && Extends(s, LeasedStep(s, strategy, leaseNow, clock, c))
  {
    LeaseDelivers(s.pool.store, leaseNow);
    LeaseValues(s.pool.store, leaseNow, s.seen, s.condemned);
    assert LiveRecord(LeaseRecord(s, c, leaseNow), s.condemned);
  }

  lemma HalvesExtend(s: Sys, e: Event)
    requires Sound(s)
    requires Enabled(s, e) && (e.AskEvent? || e.JoinEvent?)
    ensures Extends(s, Apply(s, e))
  {
    match e
    case AskEvent(strategy, executor, wait, now) =>
      AskForm(s, strategy, executor, wait, now);
      GetExtends(s, strategy, executor, wait, now, now);
    case JoinEvent(ticket, now) => JoinForm(s, ticket, now);
  }

  lemma ReturnExtends(s: Sys, h: nat, how: Strategy, now: Ticks)
    requires s.pool.store.Valid() && OwnersOk(s.owners, s.pool.store.used)
    requires ValuesOk(s.pool.store, s.seen, s.condemned)
    ensures Extends(s, ReturnStep(s, h, how, now))
  {
    if Held(h) in s.owners {
      GivenBackLive(s.pool, s.owners[Held(h)].cell, how, now, s.seen, s.condemned);
    }
  }

  /** A cell that was given back, for the next waiter or not, holds nothing condemned. */
  lemma GivenBackLive(
    p: PoolState, c: CellId, how: Strategy, now: Ticks, seen: set<Resource>, condemned: set<Resource>)
    requires p.store.Valid() && c in p.store.used && ValuesOk(p.store, seen, condemned)
    ensures p.store.Has(c)
    ensures var b := GiveBack(p, c, how, now).0.store;
            && b.cells.Keys == p.store.cells.Keys
            && (b.cells[c].value.Some? ==> b.cells[c].value.value !in condemned)
  {
    GiveBackStore(p, c, how, now);
  }

  lemma DestroyExtends(s: Sys, h: nat, now: Ticks)
    requires s.pool.store.Valid() && OwnersOk(s.owners, s.pool.store.used)
    requires ValuesOk(s.pool.store, s.seen, s.condemned)
    ensures Extends(s, DestroyStep(s, h, now))
  {
    if Held(h) in s.owners {
      ReturnExtends(s, h, s.owners[Held(h)].strategy, now);
    }
  }

  lemma DropConnectionExtends(s: Sys, h: nat, bad: bool, idle: bool, now: Ticks)
    requires Sound(s)
    ensures Extends(s, DropConnectionStep(s, h, bad, idle, now))
    ensures Held(h) !in DropConnectionStep(s, h, bad, idle, now).owners
  {
    if ValueOf(s, h).Some? && (bad || !idle) {
      DropConnectionForm(s, h, bad, idle, now);
      ReturnExtends(s, h, AutoWaste, now);
      ReturnDrops(s, h, AutoWaste, now);
    } else if Held(h) in s.owners {
      DestroyExtends(s, h, now);
      ReturnDrops(s, h, s.owners[Held(h)].strategy, now);
    }
  }

  lemma HandleStepExtends(s: Sys, e: Event)
    requires Sound(s) && Enabled(s, e)
    requires e.DestroyEvent? || e.MoveEvent? || e.ResetEvent? || e.DropConnectionEvent?
    ensures Extends(s, Apply(s, e))
  {
    match e
    case DestroyEvent(h, now) => DestroyExtends(s, h, now);
    case MoveEvent(source, target, now) => DestroyExtends(s, target, now);
    case DropConnectionEvent(h, bad, idle, now) => DropConnectionExtends(s, h, bad, idle, now);
    case ResetEvent(h, value, now) =>
      if Held(h) in s.owners {
        UsedExists(s.pool.store, s.owners[Held(h)].cell);
      }
  }

  lemma StepExtends(s: Sys, e: Event)
    requires Sound(s) && Enabled(s, e)
    ensures Extends(s, Apply(s, e))
  {
    match e
    case GetEvent(strategy, executor, wait, leaseNow, pushNow) =>
      GetExtends(s, strategy, executor, wait, leaseNow, pushNow);
    case AskEvent(_, _, _, _) => HalvesExtend(s, e);
    case JoinEvent(_, _) => HalvesExtend(s, e);
    case ReturnEvent(h, how, now) => ReturnExtends(s, h, how, now);
    case DestroyEvent(_, _) => HandleStepExtends(s, e);
    case MoveEvent(_, _, _) => HandleStepExtends(s, e);
    case ResetEvent(_, _, _) => HandleStepExtends(s, e);
    case DropConnectionEvent(_, _, _, _) => HandleStepExtends(s, e);
    case DeliverEvent(_, _) =>
    case TimerEvent(_, _) =>
    case TimeoutEvent(_, _, _) =>
    case InvalidateEvent => InvalidateKeepsValid(s.pool.store);
    case DisableEvent =>
  }

  lemma {:induction false} RunExtends(s: Sys, es: seq<Event>)
    requires Inv(s) && Allowed(s, es)
    ensures Extends(s, Run(s, es))
    decreases |es|
  {
    if es == [] {
    } else {
      StepKeepsInv(s, es[0]);
      StepExtends(s, es[0]);
      RunExtends(Apply(s, es[0]), es[1..]);
      ExtendsTransitive(s, Apply(s, es[0]), Run(s, es));
    }
  }

  /** Every `get` of the run happens as a whole, as it does when the pool's lock is the stub one. */
  predicate Whole(es: seq<Event>) {
    forall i :: 0 <= i < |es| ==> WholeEvent(es[i])
  }

  lemma {:induction false} RunStrict(s: Sys, es: seq<Event>)
    requires Inv(s) && Strict(s) && Allowed(s, es) && Whole(es)
    ensures Strict(Run(s, es))
    decreases |es|
  {
    if es == [] {
    } else {
      StepKeepsInv(s, es[0]);
      StepKeepsStrict(s, es[0]);
      RunStrict(Apply(s, es[0]), es[1..]);
    }
  }

  // ---------------------------------------------------------------------------------------
  // Theorems.

  /** Cells are conserved: the same cells as at the start, each on exactly one list, wasted ones empty. */
  lemma CellsConserved(s: Sys, es: seq<Event>)
    requires FromStart(s, es)
    ensures var t := After(s, es).pool.store;
            && t.cells.Keys == s.pool.store.cells.Keys
            && |t.available| + |t.used| + |t.wasted| == |s.pool.store.cells|
            && (forall c :: c in t.cells <==> c in t.available || c in t.used || c in t.wasted)
            && (forall c :: c in t.used ==> c !in t.available && c !in t.wasted)
            && (forall c :: c in t.available ==> c !in t.wasted)
            && (forall c :: c in t.wasted ==> c in t.cells && t.cells[c].value == None)
  {
    InitInv(s);
    RunExtends(s, es);
    var t := After(s, es).pool.store;
    PartitionMeaning(t);
    forall c | c in t.wasted ensures c in t.cells && t.cells[c].value == None {
      assert t.CellOk(c);
    }
  }

  /** Distinct owners own distinct cells, so the owned cells are as many as the owners. */
  lemma {:induction false} OwnedCells(owners: map<Owner, Owned>) returns (cells: set<CellId>)
    requires forall o, p :: o in owners && p in owners && owners[o].cell == owners[p].cell ==> o == p
    ensures |cells| == |owners|
    ensures forall c :: c in cells <==> exists o :: o in owners && owners[o].cell == c
    decreases |owners|
  {
    if |owners| == 0 {
      cells := {};
    } else {
      var o :| o in owners;
      var rest := owners - {o};
      assert owners == rest[o := owners[o]];
      cells := OwnedCells(rest);
      forall p | p in rest ensures rest[p].cell != owners[o].cell {}
      cells := cells + {owners[o].cell};
      forall c ensures c in cells <==> exists p :: p in owners && owners[p].cell == c {
        if c in cells && c != owners[o].cell {
          var p :| p in rest && rest[p].cell == c;
          assert p in owners;
        }
        if c == owners[o].cell {
          assert o in owners && owners[o].cell == c;
        }
      }
    }
  }

  /** A subset that is as large as the whole is the whole. */
  lemma SameSize(a: set<CellId>, b: set<CellId>)
    requires a <= b && |a| == |b|
    ensures a == b
  {
    assert |b - a| == |b| - |a|;
  }

  lemma {:induction false} ElemsSize(line: seq<CellId>)
    requires forall i, j :: 0 <= i < j < |line| ==> line[i] != line[j]
    ensures |Elems(line)| == |line|
  {
    if line == [] {
    } else {
      var k := |line| - 1;
      ElemsSize(line[..k]);
      assert Elems(line) == Elems(line[..k]) + {line[k]};
      assert line[k] !in Elems(line[..k]);
    }
  }

  /** Each used cell belongs to exactly one completion in flight or live handle, and each of those to a used cell. */
  lemma OwnedExactlyOnce(s: Sys, es: seq<Event>)
    requires FromStart(s, es)
    ensures var t := After(s, es);
            forall c :: c in t.pool.store.used <==> exists o :: o in t.owners && t.owners[o].cell == c
    ensures var t := After(s, es);
            forall o, p :: o in t.owners && p in t.owners && t.owners[o].cell == t.owners[p].cell ==> o == p
  {
    var t := After(s, es);
    var cells := OwnedCells(t.owners);
    PartitionMeaning(t.pool.store);
    ElemsSize(t.pool.store.used);
    SameSize(cells, Elems(t.pool.store.used));
  }

  lemma LogCounts(log: seq<Record>, waiters: seq<Waiter>, issued: nat)
    requires LogOk(log, waiters, issued)
    ensures issued == |log| + |waiters|
    ensures var m: multiset<nat> := multiset(LogIds(log)); forall r: nat :: m[r] <= 1
    ensures forall r :: r in LogIds(log) ==> r < issued && r !in WaiterIds(waiters)
  {
    var done, waiting := LogIds(log), WaiterIds(waiters);
    var once: multiset<nat> := multiset(done);
    var all := once + multiset(waiting);
    assert |all| == |done| + |waiting|;
    assert |Below(issued)| == |Upto(issued)|;
    forall r: nat ensures once[r] <= 1 && (r in done ==> r < issued && r !in waiting) {
      assert all[r] == Below(issued)[r];
    }
  }

  /**
   Requests are conserved: each one made is completed exactly once, or is waiting, or is about to join the
   queue, and never two of these.
   */
  lemma RequestsConserved(s: Sys, es: seq<Event>)
    requires FromStart(s, es)
    ensures var t := After(s, es);
            && t.asked == |t.log| + |t.pool.line.waiters| + |t.joining|
            && (forall i, j :: 0 <= i < j < |t.log| ==> t.log[i].request != t.log[j].request)
            && (forall i, j :: 0 <= i < |t.log| && 0 <= j < |t.pool.line.waiters| ==>
                  t.log[i].request != t.pool.line.waiters[j].request.id)
            && (forall i :: 0 <= i < |t.log| ==> t.log[i].request < t.issued)
            && (Whole(es) ==> t.joining == map[])
  {
    var t := After(s, es);
    DoneOrWaiting(t.log, t.pool.line.waiters, t.issued);
    if Whole(es) {
      InitInv(s);
      RunStrict(s, es);
    }
  }

  lemma DoneOrWaiting(log: seq<Record>, waiters: seq<Waiter>, issued: nat)
    requires LogOk(log, waiters, issued)
    ensures issued == |log| + |waiters|
    ensures forall i, j :: 0 <= i < j < |log| ==> log[i].request != log[j].request
    ensures forall i, j :: 0 <= i < |log| && 0 <= j < |waiters| ==> log[i].request != waiters[j].request.id
    ensures forall i :: 0 <= i < |log| ==> log[i].request < issued
  {
    LogCounts(log, waiters, issued);
    var done, waiting := LogIds(log), WaiterIds(waiters);
    Distinct(done);
    forall i, j | 0 <= i < j < |log| ensures log[i].request != log[j].request {
      assert done[i] != done[j];
    }
    forall i | 0 <= i < |log| ensures log[i].request in done && log[i].request < issued {
      assert done[i] == log[i].request;
    }
    forall j | 0 <= j < |waiters| ensures waiters[j].request.id in waiting {
      assert waiting[j] == waiters[j].request.id;
    }
  }

  lemma {:induction false} GrantPlaces(log: seq<Record>, i: nat, j: nat, all: bool)
    requires Increasing(GrantIds(log, all)) && i < j < |log| && Counted(log[i], all) && Counted(log[j], all)
    ensures log[i].request < log[j].request
  {
    var k := |log| - 1;
    var before := log[..k];
    var ids := GrantIds(log, all);
    var prior := GrantIds(before, all);
    assert ids[..|prior|] == prior;
    if j < k {
      forall a, b | 0 <= a < b < |prior|
        ensures prior[a] < prior[b]
      {
        assert ids[a] == prior[a] && ids[b] == prior[b];
      }
      GrantPlaces(before, i, j, all);
    } else {
      GrantListed(before, i, all);
      var a :| 0 <= a < |prior| && prior[a] == log[i].request;
      assert ids[a] == prior[a] && ids[|prior|] == log[j].request;
    }
  }

  lemma {:induction false} GrantListed(log: seq<Record>, i: nat, all: bool)
    requires i < |log| && Counted(log[i], all)
    ensures log[i].request in GrantIds(log, all)
  {
    var k := |log| - 1;
    if i < k {
      GrantListed(log[..k], i, all);
    }
  }

  /** The grants among `log` are in the order in which their requests were decided. */
  ghost predicate InOrder(log: seq<Record>, all: bool) {
    forall i, j :: 0 <= i < j < |log| && Counted(log[i], all) && Counted(log[j], all) ==>
      log[i].request < log[j].request
  }

  lemma GrantsInOrder(log: seq<Record>, all: bool)
    requires Increasing(GrantIds(log, all))
    ensures InOrder(log, all)
  {
    forall i, j | 0 <= i < j < |log| && Counted(log[i], all) && Counted(log[j], all)
      ensures log[i].request < log[j].request
    {
      GrantPlaces(log, i, j, all);
    }
  }

  /** Of two requests that waited in the queue, the one that joined it first is served first. */
  lemma QueueServedInOrder(s: Sys, es: seq<Event>)
    requires FromStart(s, es)
    ensures InOrder(After(s, es).log, false)
  {
    GrantsInOrder(After(s, es).log, false);
  }

  /** With whole `get`s nobody overtakes, whether served from idle cells or by hand-over. */
  lemma GrantsInArrivalOrder(s: Sys, es: seq<Event>)
    requires FromStart(s, es) && Whole(es)
    ensures InOrder(After(s, es).log, true)
  {
    InitInv(s);
    RunStrict(s, es);
    GrantsInOrder(After(s, es).log, true);
  }

  /**
   A granted value was set after the latest invalidation and is within its lifespan since; taken from the idle
   cells, it is within its idle time as well. A request times out no earlier than it asked to.
   */
  lemma GrantsAreFreshTimeoutsAreDue(s: Sys, es: seq<Event>)
    requires FromStart(s, es)
    ensures var t := After(s, es);
            forall i :: 0 <= i < |t.log| ==>
              match t.log[i].outcome
              case Grant(_, value, evidence) =>
                value.Some? ==>
                  && evidence.setIn == evidence.epoch
                  && evidence.now < evidence.lifeEnd
                  && (evidence.idleEnd.Some? ==> evidence.now < evidence.idleEnd.value)
              case Refused(_) => true
              case TimedOut(expiresAt, at) => expiresAt <= at
  {
    var t := After(s, es);
    forall i | 0 <= i < |t.log|
      ensures RecordOk(t.log[i])
    {
    }
  }

  /**
   Between its grant and its delivery a value can only be overtaken by an invalidation, and that shows: a value
   in flight is one set after the latest invalidation if and only if its cell is not marked for disposal.
   */
  lemma FlightIsFreshUnlessMarked(s: Sys, es: seq<Event>, r: nat)
    requires FromStart(s, es) && InFlight(r) in After(s, es).owners
    ensures var t := After(s, es);
            var c := t.owners[InFlight(r)].cell;
            && t.pool.store.Has(c)
            && (t.pool.store.Filled(c) ==>
                  && c in t.past.setIn
                  && (t.past.setIn[c] == t.past.epoch <==> !t.pool.store.cells[c].wasteOnRecycle))
  {
    var t := After(s, es);
    var c := t.owners[InFlight(r)].cell;
    UsedIsApart(t.pool.store, c);
    assert FreshCell(t.pool.store, t.past, c);
    assert MarkedIsOld(t.pool.store, t.past, c);
  }

  /** Somebody waits: then a wait for the minimum expiry is pending, or its handler is about to run. */
  ghost predicate Armed(t: Sys) {
    var ws := t.pool.line.waiters;
    ws != [] ==>
      exists k :: 0 <= k < |ws|
        && (forall i :: 0 <= i < |ws| ==> ws[k].expiresAt <= ws[i].expiresAt)
        && (|| ws[k].expiresAt in t.fired
            || (ws[k].executor.context in t.pool.line.timers
                && t.pool.line.timers[ws[k].executor.context] == Some(ws[k].expiresAt)))
  }

  /** The queue is within bounds, and whoever waits is waited for. */
  lemma WaitingMeansArmed(s: Sys, es: seq<Event>)
    requires FromStart(s, es)
    ensures var t := After(s, es); |t.pool.line.waiters| <= t.pool.line.capacity && Armed(t)
  {
    var t := After(s, es);
    if t.pool.line.waiters != [] {
      var k := Earliest(t.pool.line.waiters);
    }
  }

  /** With whole `get`s, while somebody waits every cell is in use and the pool is not disabled. */
  lemma WaitingMeansAllUsed(s: Sys, es: seq<Event>)
    requires FromStart(s, es) && Whole(es)
    ensures var p := After(s, es).pool;
            p.line.waiters != [] ==>
              && p.store.available == [] && p.store.wasted == [] && !p.disabled
              && |p.store.used| == |p.store.cells|
  {
    InitInv(s);
    RunStrict(s, es);
    PartitionMeaning(After(s, es).pool.store);
  }

  /**
   A connection dropped while bad or in a transaction is never handed to anyone again, and its cell has gone
   back once: its handle owns nothing any more.
   */
  lemma DroppedNeverSeenAgain(s: Sys, h: nat, bad: bool, idle: bool, now: Ticks, es: seq<Event>)
    requires Inv(s) && s.clock <= now && ValueOf(s, h).Some? && (bad || !idle)
    requires (DropConnectionKeepsInv(s, h, bad, idle, now); Allowed(DropConnectionStep(s, h, bad, idle, now), es))
    ensures var t := DropConnectionStep(s, h, bad, idle, now);
            && Inv(t) && Held(h) !in t.owners
            && var u := Run(t, es);
               && s.log <= t.log <= u.log
               && forall i :: |s.log| <= i < |u.log| && u.log[i].outcome.Grant? ==>
                    u.log[i].outcome.value != ValueOf(s, h)
  {
    DropConnectionKeepsInv(s, h, bad, idle, now);
    DropConnectionExtends(s, h, bad, idle, now);
    var t := DropConnectionStep(s, h, bad, idle, now);
    RunExtends(t, es);
    var u := Run(t, es);
    var v := ValueOf(s, h);
    assert v.value in t.condemned by {
      DropConnectionForm(s, h, bad, idle, now);
    }
    forall i | |s.log| <= i < |u.log| && u.log[i].outcome.Grant? ensures u.log[i].outcome.value != v {
      if i < |t.log| {
        DropGrantsEmpty(s, h, bad, idle, now, i);
        assert u.log[i] == t.log[i];
      } else {
        assert LiveRecord(u.log[i], t.condemned);
      }
    }
  }

  /** Whoever is served by the dropped connection's cell gets it empty. */
  lemma DropGrantsEmpty(s: Sys, h: nat, bad: bool, idle: bool, now: Ticks, i: nat)
    requires s.pool.store.Valid() && OwnersOk(s.owners, s.pool.store.used)
    requires ValueOf(s, h).Some? && (bad || !idle)
    requires |s.log| <= i < |DropConnectionStep(s, h, bad, idle, now).log|
    ensures var e := DropConnectionStep(s, h, bad, idle, now).log[i]; e.outcome.Grant? ==> e.outcome.value == None
  {
    DropConnectionForm(s, h, bad, idle, now);
    GiveBackStore(s.pool, s.owners[Held(h)].cell, AutoWaste, now);
  }
}
