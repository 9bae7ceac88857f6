/** The asynchronous pool over its storage and its queue, and the handles its users hold. */
module Pools {
  import opened Basics
  import opened TimeTraits
  import opened Storage
  import opened WaitQueues

  datatype Code = Disabled | GetResourceTimeout | RequestQueueOverflow

  /** A completion handed to an executor: a leased cell, or an error. */
  datatype Completion = Granted(request: Request, cell: CellId) | Failed(request: Request, code: Code)

  datatype PoolState = PoolState(store: Store, line: Line, disabled: bool)

  /** The first half of `get`, under the lock: a cell or a refusal, or neither. */
  function Ask(p: PoolState, request: Request, wait: Ticks, now: Ticks): (PoolState, Option<Completion>)
    requires Known(p.store.cells, p.store.available) && Known(p.store.cells, p.store.wasted)
  {
    if p.disabled then (p, Some(Failed(request, Disabled)))
    else
      var (store, cell) := Lease(p.store, now);
      var q := p.(store := store);
      if cell.Some? then (q, Some(Granted(request, cell.value)))
      else if wait == 0 then (q, Some(Failed(request, GetResourceTimeout)))
      else (q, None)
  }

  /** The second half, with the pool's lock let go: a place in the queue, or a refusal when it is full. */
  function Join(p: PoolState, request: Request, executor: Executor, wait: Ticks, now: Ticks)
    : (PoolState, Option<Completion>)
  {
    if |p.line.waiters| >= p.line.capacity then (p, Some(Failed(request, RequestQueueOverflow)))
    else (p.(line := PushWaiter(p.line, Waiter(request, executor, Add(now, wait)))), None)
  }

  function Get(p: PoolState, request: Request, executor: Executor, wait: Ticks, leaseNow: Ticks, pushNow: Ticks)
    : (PoolState, Option<Completion>)
    requires Known(p.store.cells, p.store.available) && Known(p.store.cells, p.store.wasted)
  {
    var (q, posted) := Ask(p, request, wait, leaseNow);
    if posted.Some? then (q, posted) else Join(q, request, executor, wait, pushNow)
  }

  /** A cell comes back with a value its holder considers good. */
  function Recycle(p: PoolState, c: CellId, now: Ticks): (PoolState, Option<Completion>)
    requires c in p.store.used && p.store.Has(c)
  {
    if p.line.waiters == [] then (p.(store := RecycleCell(p.store, c, now)), None)
    else
      (p.(store := if IsValid(p.store, c, now) then p.store else EmptyCell(p.store, c), line := PopWaiter(p.line)),
       Some(Granted(p.line.waiters[0].request, c)))
  }

  /** A cell comes back and its value must not be used again. */
  function Waste(p: PoolState, c: CellId): (PoolState, Option<Completion>)
    requires c in p.store.used && p.store.Has(c)
  {
    if p.line.waiters == [] then (p.(store := WasteCell(p.store, c)), None)
    else
      (p.(store := EmptyCell(p.store, c), line := PopWaiter(p.line)), Some(Granted(p.line.waiters[0].request, c)))
  }

  function GiveBack(p: PoolState, c: CellId, how: Strategy, now: Ticks): (PoolState, Option<Completion>)
    requires c in p.store.used && p.store.Has(c)
  {
    if how == AutoRecycle then Recycle(p, c, now) else Waste(p, c)
  }

  /** Shutdown: everybody waiting is told, in arrival order. */
  function Disable(p: PoolState): (PoolState, seq<Completion>) {
    (p.(disabled := true, line := Emptied(p.line)), Refusals(p.line.waiters))
  }

  function Emptied(q: Line): Line {
    if q.waiters == [] then q else q.(waiters := [], timers := map[])
  }

  function Refusals(ws: seq<Waiter>): (r: seq<Completion>)
    ensures |r| == |ws|
    ensures forall i :: 0 <= i < |ws| ==> r[i] == Failed(ws[i].request, Disabled)
  {
    seq(|ws|, i requires 0 <= i < |ws| => Failed(ws[i].request, Disabled))
  }

  /** Part of the way through the loop of `disable`. */
  ghost predicate Draining(line: Line, now: Line, posted: seq<Completion>) {
    && |posted| <= |line.waiters|
    && posted == Refusals(line.waiters[..|posted|])
    && now.waiters == line.waiters[|posted|..]
    && now.capacity == line.capacity
    && now == if posted == [] then line else Rearm(now)
  }

  lemma DrainingStep(line: Line, now: Line, posted: seq<Completion>)
    requires Draining(line, now, posted) && now.waiters != []
    ensures Draining(line, PopWaiter(now), posted + [Failed(now.waiters[0].request, Disabled)])
  {
    var n := |posted|;
    assert line.waiters[..n + 1] == line.waiters[..n] + [line.waiters[n]];
    assert now.waiters[0] == line.waiters[n] && now.waiters[1..] == line.waiters[n + 1..];
    MoreRefusals(line.waiters[..n], line.waiters[n]);
    RearmAgain(now.(waiters := now.waiters[1..]));
  }

  lemma MoreRefusals(ws: seq<Waiter>, w: Waiter)
    ensures Refusals(ws + [w]) == Refusals(ws) + [Failed(w.request, Disabled)]
  {
  }

  lemma DrainingEnd(line: Line, now: Line, posted: seq<Completion>)
    requires Draining(line, now, posted) && now.waiters == []
    ensures now == Emptied(line) && posted == Refusals(line.waiters)
  {
    assert line.waiters[..|posted|] == line.waiters;
  }

  /** The loop of `disable`: pop until nothing is left, refusing each request. */
  method Drain(queue: WaitQueue) returns (posted: seq<Completion>)
    requires queue.Valid()
    modifies queue
    ensures queue.Valid() && queue.State() == Emptied(old(queue.State()))
    ensures posted == Refusals(old(queue.State()).waiters)
  {
    posted := [];
    ghost var line := queue.State();
    while true
      invariant queue.Valid() && Draining(line, queue.State(), posted)
      decreases |line.waiters| - |posted|
    {
      ghost var now := queue.State();
      var queued := queue.Pop();
      if queued.None? {
        DrainingEnd(line, now, posted);
        break;
      }
      DrainingStep(line, now, posted);
      posted := posted + [Failed(queued.value.request, Disabled)];
    }
  }

  class PoolImpl {
    const storage: CellStorage
    const queue: WaitQueue
    var disabled: bool

    ghost predicate Valid()
      reads this, storage, queue
    {
      storage.State().Valid() && queue.Valid()
    }

    ghost function State(): PoolState
      requires Valid()
      reads this, storage, queue
    {
      PoolState(storage.State(), queue.State(), disabled)
    }

    /** The empty pool. `Create` refuses a capacity of zero before it gets here. */
    constructor (capacity: nat, queueCapacity: nat, idleTimeout: Ticks, lifespan: Ticks)
      ensures Valid() && fresh(storage) && fresh(queue)
      ensures !disabled && queue.State() == Line(queueCapacity, [], map[])
      ensures storage.idleTimeout == idleTimeout && storage.lifespan == lifespan
      ensures |storage.cells| == capacity && storage.available == [] && storage.used == []
    {
      storage := new CellStorage(capacity, idleTimeout, lifespan);
      queue := new WaitQueue(queueCapacity);
      disabled := false;
    }

    /** The pool filled from a generator, whose values come one after the other. */
    constructor Generated(values: seq<Resource>, queueCapacity: nat, now: Ticks, idleTimeout: Ticks, lifespan: Ticks)
      ensures Valid() && fresh(storage) && fresh(queue)
      ensures !disabled && queue.State() == Line(queueCapacity, [], map[])
      ensures Generates(storage.State(), values, now, idleTimeout, lifespan)
    {
      storage := new CellStorage.Generated(values, now, idleTimeout, lifespan);
      queue := new WaitQueue(queueCapacity);
      disabled := false;
    }

    /** `zero_pool_capacity` is thrown exactly for a capacity of zero. */
    static method Create(capacity: nat, queueCapacity: nat, idleTimeout: Ticks, lifespan: Ticks) returns (p: PoolImpl?)
      ensures p == null <==> capacity == 0
      ensures p != null ==> fresh(p) && p.Valid() && |p.storage.cells| == capacity && !p.disabled
    {
      if capacity == 0 {
        return null;
      }
      p := new PoolImpl(capacity, queueCapacity, idleTimeout, lifespan);
    }

    method AskCell(request: Request, wait: Ticks, now: Ticks) returns (posted: Option<Completion>)
      requires Valid()
      modifies storage
      ensures Valid() && (State(), posted) == Ask(old(State()), request, wait, now)
    {
      if disabled {
        return Some(Failed(request, Disabled));
      }
      LeaseKeepsValid(storage.State(), now);
      var cell := storage.LeaseCell(now);
      if cell.Some? {
        return Some(Granted(request, cell.value));
      }
      return if wait == 0 then Some(Failed(request, GetResourceTimeout)) else None;
    }

    method JoinQueue(request: Request, executor: Executor, wait: Ticks, now: Ticks)
      returns (posted: Option<Completion>)
      requires Valid()
      modifies queue
      ensures Valid() && (State(), posted) == Join(old(State()), request, executor, wait, now)
    {
      var pushed := queue.Push(executor, wait, request, now);
      return if pushed then None else Some(Failed(request, RequestQueueOverflow));
    }

    method GetCell(request: Request, executor: Executor, wait: Ticks, leaseNow: Ticks, pushNow: Ticks)
      returns (posted: Option<Completion>)
      requires Valid()
      modifies storage, queue
      ensures Valid() && (State(), posted) == Get(old(State()), request, executor, wait, leaseNow, pushNow)
    {
      posted := AskCell(request, wait, leaseNow);
      if posted.None? {
        posted := JoinQueue(request, executor, wait, pushNow);
      }
    }

    /** Cell `c` was given back, and `posted` is what came of it. */
    twostate predicate GotBack(c: CellId, how: Strategy, now: Ticks, new posted: Option<Completion>)
      reads this, storage, queue
    {
      && old(Valid()) && Valid() && old(State()).store.Has(c) && c in old(State()).store.used
      && (State(), posted) == GiveBack(old(State()), c, how, now)
    }

    method RecycleHeld(c: CellId, now: Ticks) returns (posted: Option<Completion>)
      requires Valid() && c in storage.used
      modifies storage, queue
      ensures Valid() && old(State()).store.Has(c) && (State(), posted) == Recycle(old(State()), c, now)
    {
      UsedExists(storage.State(), c);
      var queued := queue.Pop();
      if queued.None? {
        storage.Recycle(c, now);
        return None;
      }
      storage.Refresh(c, now);
      return Some(Granted(queued.value.request, c));
    }

    method WasteHeld(c: CellId) returns (posted: Option<Completion>)
      requires Valid() && c in storage.used
      modifies storage, queue
      ensures Valid() && old(State()).store.Has(c) && (State(), posted) == Waste(old(State()), c)
    {
      UsedExists(storage.State(), c);
      var queued := queue.Pop();
      if queued.None? {
        storage.Waste(c);
        return None;
      }
      storage.Empty(c);
      return Some(Granted(queued.value.request, c));
    }

    /** A held cell comes back the given way. */
    method GetBack(c: CellId, how: Strategy, now: Ticks) returns (posted: Option<Completion>)
      requires Valid() && c in storage.used
      modifies storage, queue
      ensures GotBack(c, how, now, posted)
    {
      if how == AutoRecycle {
        posted := RecycleHeld(c, now);
      } else {
        posted := WasteHeld(c);
      }
    }

    method DisablePool() returns (posted: seq<Completion>)
      requires Valid()
      modifies this, queue
      ensures Valid() && (State(), posted) == Disable(old(State()))
    {
      disabled := true;
      posted := Drain(queue);
    }

    method InvalidatePool()
      requires Valid()
      modifies storage
      ensures Valid() && State() == old(State()).(store := InvalidateStore(old(State()).store))
    {
      storage.Invalidate();
    }
  }

  /** Unusable handles refuse every operation. */
  datatype HandleError = UnusableHandle

  class Handle {
    var pool: PoolImpl?
    var strategy: Strategy
    var cell: Option<CellId>

    /** A usable handle belongs to a pool in which its cell is in use. */
    ghost predicate Valid()
      reads this, pool, if pool != null then {pool.storage, pool.queue} else {}
    {
      cell.Some? ==> pool != null && pool.Valid() && cell.value in pool.storage.used
    }

    /** What this handle may change: itself and its pool. */
    ghost function Reach(): set<object>
      reads this
    {
      {this} + if pool == null then {} else {pool.storage, pool.queue}
    }

    constructor (pool: PoolImpl, strategy: Strategy, cell: CellId)
      ensures this.pool == pool && this.strategy == strategy && this.cell == Some(cell)
    {
      this.pool, this.strategy, this.cell := pool, strategy, Some(cell);
    }

    /** Move construction: the source gives its cell up. */
    constructor MoveFrom(other: Handle)
      modifies other
      ensures pool == old(other.pool) && strategy == old(other.strategy) && cell == old(other.cell)
      ensures other.cell == None && other.pool == null && other.strategy == old(other.strategy)
    {
      pool, strategy, cell := other.pool, other.strategy, other.cell;
      new;
      other.cell, other.pool := None, null;
    }

    /**
     * Move assignment: the cell held before goes back by this handle's own strategy, then the source gives its
     * cell up. Assigned to itself, a handle gives its cell back and keeps nothing.
     */
    method Assign(other: Handle, now: Ticks) returns (posted: Option<Completion>)
      requires Valid()
      modifies this, other, if cell.None? then {} else Reach()
      ensures old(cell).None? ==> posted == None
      ensures old(cell).Some? ==> old(pool).GotBack(old(cell).value, old(strategy), now, posted)
      ensures other != this ==>
                && cell == old(other.cell) && pool == old(other.pool) && strategy == old(other.strategy)
      ensures other.cell == None && other.pool == null
    {
      posted := None;
      if cell.Some? {
        posted := pool.GetBack(cell.value, strategy, now);
        cell := None;
      }
      TakeOver(other);
    }

    method TakeOver(other: Handle)
      modifies this, other
      ensures other != this ==>
                && cell == old(other.cell) && pool == old(other.pool) && strategy == old(other.strategy)
      ensures other.cell == None && other.pool == null
    {
      pool, strategy, cell := other.pool, other.strategy, other.cell;
      other.cell, other.pool := None, null;
    }

    /** Give the cell back the given way. On an unusable handle this fails and changes nothing. */
    method Return(how: Strategy, now: Ticks) returns (r: Result<Option<Completion>, HandleError>)
      requires Valid()
      modifies if cell.None? then {} else Reach()
      ensures Valid()
      ensures old(cell).None? ==> r == Err(UnusableHandle)
      ensures old(cell).Some? ==>
                && cell == None && r.Ok? && pool == old(pool)
                && old(pool).GotBack(old(cell).value, how, now, r.value)
    {
      if cell.None? {
        return Err(UnusableHandle);
      }
      var posted := pool.GetBack(cell.value, how, now);
      cell := None;
      return Ok(posted);
    }

    /** `reset`: put a new value into the held cell. */
    method Reset(v: Resource, now: Ticks) returns (r: Result<bool, HandleError>)
      requires Valid()
      modifies if cell.None? then {} else Reach()
      ensures Valid() && cell == old(cell) && pool == old(pool)
      ensures r.Ok? <==> cell.Some?
      ensures r.Ok? ==> pool.Valid() && old(pool.State()).store.Has(cell.value)
                        && pool.State() ==
                           old(pool.State()).(store := ResetCell(old(pool.State()).store, cell.value, v, now))
    {
      if cell.None? {
        return Err(UnusableHandle);
      }
      pool.storage.Reset(cell.value, v, now);
      return Ok(true);
    }

    /** Destruction gives the cell back by the handle's own strategy, once: a second one changes nothing. */
    method Destroy(now: Ticks) returns (posted: Option<Completion>)
      requires Valid()
      modifies if cell.None? then {} else Reach()
      ensures Valid() && cell == None && pool == old(pool)
      ensures old(cell).None? ==> posted == None
      ensures old(cell).Some? ==> old(pool).GotBack(old(cell).value, old(strategy), now, posted)
    {
      if cell.None? {
        return None;
      }
      var r := Return(strategy, now);
      return r.value;
    }
  }
}
