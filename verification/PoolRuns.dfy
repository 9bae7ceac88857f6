/**
 Whole runs of a pool and its users: requests, deliveries, handles, timers, invalidation and shutdown
 in any order. A `get` happens as a whole, or in two halves with anything between them, as it does when the
 pool has a real lock. `Inv` holds in every state a run can reach, `Strict` in every state that a run of
 whole `get`s can reach; `PoolTheorems` says what that means.
 */
module PoolRuns {
  import opened Basics
  import opened TimeTraits
  import opened Storage
  import opened WaitQueues
  import opened Pools

  /** Who answers for a used cell: a completion on its way to a requester, or a live handle. */
  datatype Owner = InFlight(request: nat) | Held(handle: nat)
  datatype Owned = Owned(cell: CellId, strategy: Strategy)

  /** A request between the two halves of its `get`: it found no cell and has not joined the queue yet. */
  datatype Joining = Joining(strategy: Strategy, executor: Executor, wait: Ticks)

  /**
   The facts about a granted value, taken from the history and not from the cell: the number of
   invalidations before it was set and before it was granted, the end of its life counted from when it was set,
   for a lease the end of its idle time counted from when it became idle, and the clock reading of the grant.
   */
  datatype Evidence = Evidence(setIn: nat, epoch: nat, lifeEnd: Ticks, idleEnd: Option<Ticks>, now: Ticks)

  datatype Outcome =
    | Grant(cell: CellId, value: Option<Resource>, evidence: Evidence)
    | Refused(code: Code)
    | TimedOut(expiresAt: Ticks, at: Ticks)

  datatype Record = Record(request: nat, outcome: Outcome)

  /** Invalidations so far; in which of these eras and when each cell was last set; when it last became idle. */
  datatype History = History(
    epoch: nat, setIn: map<CellId, nat>, setAt: map<CellId, Ticks>, idleSince: map<CellId, Ticks>)

  /**
   `fired` are timer handlers that are due to run but have not run yet, `joining` the requests between the halves
   of their `get`. From `asked` on the fields are history: calls of `get`, requests that were decided (numbered as
   they are granted, refused or queued), completions issued, the history of the cells, the values ever pooled and
   the values their owners condemned.
   */
  datatype Sys = Sys(
    pool: PoolState,
    owners: map<Owner, Owned>,
    fired: multiset<Ticks>,
    clock: Ticks,
    joining: map<nat, Joining>,
    asked: nat,
    issued: nat,
    log: seq<Record>,
    past: History,
    seen: set<Resource>,
    condemned: set<Resource>)

  datatype Event =
    | GetEvent(strategy: Strategy, executor: Executor, wait: Ticks, leaseNow: Ticks, pushNow: Ticks)
    | AskEvent(strategy: Strategy, executor: Executor, wait: Ticks, now: Ticks)
    | JoinEvent(ticket: nat, now: Ticks)
    | DeliverEvent(request: nat, handle: nat)
    | ReturnEvent(handle: nat, how: Strategy, now: Ticks)
    | DestroyEvent(handle: nat, now: Ticks)
    | MoveEvent(source: nat, target: nat, now: Ticks)
    | ResetEvent(handle: nat, value: Resource, now: Ticks)
    | DropConnectionEvent(handle: nat, bad: bool, idle: bool, now: Ticks)
    | TimerEvent(context: nat, now: Ticks)
    | TimeoutEvent(at: Ticks, posted: seq<Waiter>, now: Ticks)
    | InvalidateEvent
    | DisableEvent

  // ---------------------------------------------------------------------------------------
  // Projections of the log and the queue.

  function LogIds(log: seq<Record>): (r: seq<nat>)
    ensures |r| == |log|
    ensures forall i :: 0 <= i < |log| ==> r[i] == log[i].request
  {
    seq(|log|, i requires 0 <= i < |log| => log[i].request)
  }

  function WaiterIds(ws: seq<Waiter>): (r: seq<nat>)
    ensures |r| == |ws|
    ensures forall i :: 0 <= i < |ws| ==> r[i] == ws[i].request.id
  {
    seq(|ws|, i requires 0 <= i < |ws| => ws[i].request.id)
  }

  /** A grant that counts: any, or only one that was handed over to a waiting request. */
  predicate Counted(e: Record, all: bool) {
    e.outcome.Grant? && (all || e.outcome.evidence.idleEnd.None?)
  }

  /** The requests that were given a cell, in the order they were given it. */
  function GrantIds(log: seq<Record>, all: bool): seq<nat> {
    if log == [] then []
    else
      var e := log[|log| - 1];
      GrantIds(log[..|log| - 1], all) + if Counted(e, all) then [e.request] else []
  }

  // ---------------------------------------------------------------------------------------
  // The invariant, group by group.

  /** Owners and used cells correspond one to one. */
  ghost predicate OwnersOk(owners: map<Owner, Owned>, used: seq<CellId>) {
    && (forall o :: o in owners ==> owners[o].cell in used)
    && (forall o, p :: o in owners && p in owners && owners[o].cell == owners[p].cell ==> o == p)
    && |owners| == |used|
  }

  /** A completion in flight is on record. */
  ghost predicate FlightOk(owners: map<Owner, Owned>, log: seq<Record>) {
    forall r :: InFlight(r) in owners ==> r in LogIds(log)
  }

  /** Requests are numbered as they arrive. */
  ghost predicate Ordered(ws: seq<Waiter>) {
    forall i, j :: 0 <= i < j < |ws| ==> ws[i].request.id < ws[j].request.id
  }

  ghost predicate LineOk(line: Line, issued: nat) {
    && |line.waiters| <= line.capacity
    && Ordered(line.waiters)
    && (forall i :: 0 <= i < |line.waiters| ==> line.waiters[i].request.id < issued)
  }

  /** Somebody waits, so a wait is armed for the minimum expiry, or its handler is about to run. */
  ghost predicate ArmedOk(line: Line, fired: multiset<Ticks>) {
    line.waiters != [] ==>
      var w := line.waiters[Earliest(line.waiters)];
      || (w.executor.context in line.timers && line.timers[w.executor.context] == Some(w.expiresAt))
      || w.expiresAt in fired
  }

  ghost predicate FiredOk(fired: multiset<Ticks>, clock: Ticks) {
    forall t :: t in fired ==> t <= clock
  }

  /** No idle cell while somebody waits; nobody waits once the pool is disabled. */
  ghost predicate IdleOk(p: PoolState) {
    && (p.line.waiters != [] ==> p.store.available == [] && p.store.wasted == [])
    && (p.disabled ==> p.line.waiters == [])
  }

  /** Requests decided are completions issued plus requests still queued, each exactly once. */
  ghost predicate LogOk(log: seq<Record>, waiters: seq<Waiter>, issued: nat) {
    multiset(LogIds(log)) + multiset(WaiterIds(waiters)) == Below(issued)
  }

  /** The grants that count are in order of arrival. */
  ghost predicate FifoOk(log: seq<Record>, waiters: seq<Waiter>, issued: nat, all: bool) {
    && Increasing(GrantIds(log, all))
    && (forall r :: r in GrantIds(log, all) ==> r < issued)
    && (forall r, i :: r in GrantIds(log, all) && 0 <= i < |waiters| ==> r < waiters[i].request.id)
  }

  /** Calls of `get` are requests decided plus requests about to join the queue. */
  ghost predicate JoinOk(joining: map<nat, Joining>, asked: nat, issued: nat) {
    asked == issued + |joining| && forall k :: k in joining ==> k < asked
  }

  ghost predicate FreshCell(s: Store, h: History, c: CellId)
    requires s.Has(c)
  {
    && (s.Filled(c) ==> c in h.setIn && h.setIn[c] <= h.epoch && c in h.setAt && s.cells[c].resetTime == h.setAt[c])
    && (s.Filled(c) && (c in s.available || !s.cells[c].wasteOnRecycle) ==> h.setIn[c] == h.epoch)
    && (c in s.available ==> c in h.idleSince)
    && (c in s.available ==> s.cells[c].dropTime == Earlier(Add(h.idleSince[c], s.idleTimeout), s.LifeEnd(c)))
  }

  ghost predicate FreshOk(s: Store, h: History) {
    forall c :: s.Has(c) ==> FreshCell(s, h, c)
  }

  /** A value in flight that is marked for disposal was set before the latest invalidation. */
  ghost predicate MarkedIsOld(s: Store, h: History, c: CellId) {
    s.Has(c) && s.Filled(c) && s.cells[c].wasteOnRecycle && c in h.setIn ==> h.setIn[c] < h.epoch
  }

  ghost predicate FlightFresh(owners: map<Owner, Owned>, s: Store, h: History) {
    forall r :: InFlight(r) in owners ==> MarkedIsOld(s, h, owners[InFlight(r)].cell)
  }

  predicate EvidenceOk(e: Evidence) {
    && e.setIn == e.epoch
    && e.now < e.lifeEnd
    && (e.idleEnd.Some? ==> e.now < e.idleEnd.value)
  }

  predicate RecordOk(e: Record) {
    match e.outcome
    case Grant(_, value, evidence) => value.Some? ==> EvidenceOk(evidence)
    case Refused(_) => true
    case TimedOut(expiresAt, at) => expiresAt <= at
  }

  ghost predicate RecordsOk(log: seq<Record>) {
    forall i :: 0 <= i < |log| ==> RecordOk(log[i])
  }

  /** A pooled value is in one cell only and is not condemned. */
  ghost predicate ValuesOk(s: Store, seen: set<Resource>, condemned: set<Resource>) {
    && (forall c :: s.Has(c) && s.Filled(c) ==> s.cells[c].value.value in seen - condemned)
    && (forall c, d :: s.Has(c) && s.Has(d) && s.Filled(c) && s.cells[c].value == s.cells[d].value ==> c == d)
    && condemned <= seen
  }

  ghost predicate CellsInv(s: Sys) {
    && s.pool.store.Valid()
    && OwnersOk(s.owners, s.pool.store.used)
    && FlightOk(s.owners, s.log)
    && FreshOk(s.pool.store, s.past)
    && FlightFresh(s.owners, s.pool.store, s.past)
    && ValuesOk(s.pool.store, s.seen, s.condemned)
  }

  ghost predicate QueueInv(s: Sys) {
    && LineOk(s.pool.line, s.issued)
    && ArmedOk(s.pool.line, s.fired)
    && FiredOk(s.fired, s.clock)
    && JoinOk(s.joining, s.asked, s.issued)
  }

  ghost predicate LogInv(s: Sys) {
    && LogOk(s.log, s.pool.line.waiters, s.issued)
    && FifoOk(s.log, s.pool.line.waiters, s.issued, false)
    && RecordsOk(s.log)
  }

  ghost predicate Inv(s: Sys) {
    CellsInv(s) && QueueInv(s) && LogInv(s)
  }

  /** What holds besides as long as every `get` happens as a whole. */
  ghost predicate Strict(s: Sys) {
    IdleOk(s.pool) && FifoOk(s.log, s.pool.line.waiters, s.issued, true) && s.joining == map[]
  }

  // ---------------------------------------------------------------------------------------
  // The beginning.

  /** A pool just made. */
  ghost predicate Init(s: Sys) {
    && s.pool.store.Valid() && s.pool.store.used == []
    && s.pool.line.waiters == [] && s.pool.line.timers == map[] && !s.pool.disabled
    && s.owners == map[] && s.fired == multiset{} && s.joining == map[] && s.asked == s.issued == 0 && s.log == []
    && s.past.epoch == 0 && s.condemned == {}
    && FreshOk(s.pool.store, s.past)
    && ValuesOk(s.pool.store, s.seen, {})
  }

  lemma InitInv(s: Sys)
    requires Init(s)
    ensures Inv(s) && Strict(s)
  {
    assert LogIds(s.log) == [] && WaiterIds(s.pool.line.waiters) == [];
  }

  /** Nothing has happened yet to a pool with storage `store`. */
  function AtStart(store: Store, queueCapacity: nat, clock: Ticks, past: History, seen: set<Resource>): Sys {
    var pool := PoolState(store, Line(queueCapacity, [], map[]), false);
    Sys(pool, map[], multiset{}, clock, map[], 0, 0, [], past, seen, {})
  }

  /** The pool of the constructor without a generator. */
  lemma EmptyPoolInit(store: Store, queueCapacity: nat, clock: Ticks)
    requires store.Valid() && store.available == [] && store.used == []
    ensures Init(AtStart(store, queueCapacity, clock, History(0, map[], map[], map[]), {}))
  {
    PartitionMeaning(store);
    forall c | store.Has(c)
      ensures !store.Filled(c) && c !in store.available
    {
      assert store.CellOk(c);
    }
  }

  /** What the history says about cells that were all set and idle at `now`. */
  function SetAtStart(n: nat, now: Ticks): History {
    History(0, map c | c in Upto(n) :: 0, map c | c in Upto(n) :: now, map c | c in Upto(n) :: now)
  }

  /** The pool of the constructor with a generator, whose values are distinct. */
  lemma GeneratedPoolInit(store: Store, values: seq<Resource>, queueCapacity: nat, now: Ticks)
    requires store.Valid() && Generates(store, values, now, store.idleTimeout, store.lifespan)
    requires forall i, j :: 0 <= i < j < |values| ==> values[i] != values[j]
    ensures Init(AtStart(store, queueCapacity, now, SetAtStart(|values|, now), Elems(values)))
  {
    PartitionMeaning(store);
    forall c: CellId | store.Has(c)
      ensures c < |values| && store.cells[c] == GeneratedCell(values[c], now, store.idleTimeout, store.lifespan)
    {
      assert c in store.available;
    }
  }

  /** What the first constructor makes is where runs begin. */
  method MakePool(capacity: nat, queueCapacity: nat, idleTimeout: Ticks, lifespan: Ticks, clock: Ticks)
    returns (pool: PoolImpl, ghost s: Sys)
    ensures fresh(pool) && pool.Valid() && Init(s) && s.pool == pool.State() && s.clock == clock
    ensures |s.pool.store.cells| == capacity
  {
    pool := new PoolImpl(capacity, queueCapacity, idleTimeout, lifespan);
    EmptyPoolInit(pool.storage.State(), queueCapacity, clock);
    s := AtStart(pool.storage.State(), queueCapacity, clock, History(0, map[], map[], map[]), {});
  }

  /** So is what the second one makes. */
  method MakeGeneratedPool(
    values: seq<Resource>, queueCapacity: nat, idleTimeout: Ticks, lifespan: Ticks, now: Ticks)
    returns (pool: PoolImpl, ghost s: Sys)
    requires forall i, j :: 0 <= i < j < |values| ==> values[i] != values[j]
    ensures fresh(pool) && pool.Valid() && Init(s) && s.pool == pool.State() && s.clock == now
    ensures s.seen == Elems(values)
  {
    pool := new PoolImpl.Generated(values, queueCapacity, now, idleTimeout, lifespan);
    GeneratedPoolInit(pool.storage.State(), values, queueCapacity, now);
    s := AtStart(pool.storage.State(), queueCapacity, now, SetAtStart(|values|, now), Elems(values));
  }

  // ---------------------------------------------------------------------------------------
  // Steps.

  ghost predicate Enabled(s: Sys, e: Event) {
    match e
    case GetEvent(_, _, _, leaseNow, pushNow) => s.clock <= leaseNow <= pushNow
    case AskEvent(_, _, _, now) => s.clock <= now
    case JoinEvent(ticket, now) => s.clock <= now && ticket in s.joining
    case DeliverEvent(request, handle) => InFlight(request) in s.owners && Held(handle) !in s.owners
    case ReturnEvent(_, _, now) => s.clock <= now
    case DestroyEvent(_, now) => s.clock <= now
    case MoveEvent(_, _, now) => s.clock <= now
    case ResetEvent(_, value, now) => s.clock <= now && value !in s.seen
    case DropConnectionEvent(_, _, _, now) => s.clock <= now
    case TimerEvent(context, now) =>
      s.clock <= now && context in s.pool.line.timers
      && s.pool.line.timers[context].Some? && s.pool.line.timers[context].value <= now
    case TimeoutEvent(at, posted, now) => s.clock <= now && at in s.fired && TimesOut(s.pool.line.waiters, at, posted)
    case InvalidateEvent => true
    case DisableEvent => true
  }

  /** What the history knows about the value in `c`. */
  function EvidenceOf(s: Sys, c: CellId, idleEnd: Option<Ticks>, now: Ticks): Evidence {
    var setIn := if c in s.past.setIn then s.past.setIn[c] else 0;
    var setAt := if c in s.past.setAt then s.past.setAt[c] else 0;
    Evidence(setIn, s.past.epoch, Add(setAt, s.pool.store.lifespan), idleEnd, now)
  }

  /** A cell is granted: the completion is posted and owns the cell until it is delivered. */
  function Granting(s: Sys, r: Request, c: CellId, idleEnd: Option<Ticks>, now: Ticks): Sys
    requires s.pool.store.Has(c)
  {
    s.(owners := s.owners[InFlight(r.id) := Owned(c, r.strategy)],
       log := s.log + [Record(r.id, Grant(c, s.pool.store.cells[c].value, EvidenceOf(s, c, idleEnd, now)))])
  }

  function IdleEnd(s: Sys, c: CellId): Ticks {
    Add(if c in s.past.idleSince then s.past.idleSince[c] else 0, s.pool.store.idleTimeout)
  }

  /** A request is answered on the spot: with a leased cell, or with a refusal. */
  ghost function Answered(s: Sys, p: PoolState, r: Request, posted: Completion, leaseNow: Ticks, clock: Ticks): Sys
    requires posted.Granted? ==> p.store.Has(posted.cell)
  {
    var t := s.(pool := p, asked := s.asked + 1, issued := s.issued + 1, clock := clock);
    match posted
    case Failed(_, code) => t.(log := s.log + [Record(r.id, Refused(code))])
    case Granted(_, c) => Granting(t, r, c, Some(IdleEnd(s, c)), leaseNow)
  }

  ghost function GetStep(
    s: Sys, strategy: Strategy, executor: Executor, wait: Ticks, leaseNow: Ticks, pushNow: Ticks): Sys
    requires s.pool.store.Valid()
  {
    var r := Request(s.issued, strategy);
    var (p, posted) := Get(s.pool, r, executor, wait, leaseNow, pushNow);
    LeaseDelivers(s.pool.store, leaseNow);
    match posted
    case None => s.(pool := p, asked := s.asked + 1, issued := s.issued + 1, clock := pushNow)
    case Some(answer) => Answered(s, p, r, answer, leaseNow, pushNow)
  }

  /** The first half of `get`: answered on the spot, or about to join the queue. */
  ghost function AskStep(s: Sys, strategy: Strategy, executor: Executor, wait: Ticks, now: Ticks): Sys
    requires s.pool.store.Valid()
  {
    var r := Request(s.issued, strategy);
    var (p, posted) := Ask(s.pool, r, wait, now);
    LeaseDelivers(s.pool.store, now);
    match posted
    case None =>
      s.(pool := p, joining := s.joining[s.asked := Joining(strategy, executor, wait)],
         asked := s.asked + 1, clock := now)
    case Some(answer) => Answered(s, p, r, answer, now, now)
  }

  /** The second half, which only a joining request has. */
  function JoinStep(s: Sys, ticket: nat, now: Ticks): Sys
    requires ticket in s.joining
  {
    var j := s.joining[ticket];
    var (p, posted) := Join(s.pool, Request(s.issued, j.strategy), j.executor, j.wait, now);
    var t := s.(pool := p, joining := s.joining - {ticket}, issued := s.issued + 1, clock := now);
    match posted
    case None => t
    case Some(g) => t.(log := s.log + [Record(s.issued, Refused(g.code))])
  }

  /** The first half finds neither a cell nor a reason to refuse. */
  predicate Undecided(p: PoolState, wait: Ticks, now: Ticks)
    requires Known(p.store.cells, p.store.available) && Known(p.store.cells, p.store.wasted)
  {
    !p.disabled && Lease(p.store, now).1.None? && wait != 0
  }

  ghost function DeliverStep(s: Sys, request: nat, handle: nat): Sys
    requires InFlight(request) in s.owners
  {
    Rename(s, InFlight(request), Held(handle))
  }

  /** The cell passes from one owner to another. */
  function Rename(s: Sys, o: Owner, p: Owner): Sys
    requires o in s.owners
  {
    s.(owners := (s.owners - {o})[p := s.owners[o]])
  }

  /** A handle gives its cell back; an unusable one changes nothing. */
  ghost function ReturnStep(s: Sys, h: nat, how: Strategy, now: Ticks): Sys
    requires s.pool.store.Valid() && OwnersOk(s.owners, s.pool.store.used)
  {
    if Held(h) !in s.owners then s.(clock := now)
    else
      var c := s.owners[Held(h)].cell;
      UsedIsApart(s.pool.store, c);
      var (p, posted) := GiveBack(s.pool, c, how, now);
      var t := s.(pool := p, owners := s.owners - {Held(h)}, clock := now);
      match posted
      case None => t.(past := s.past.(idleSince := s.past.idleSince[c := now]))
      case Some(g) => Granting(t, g.request, c, None, now)
  }

  ghost function DestroyStep(s: Sys, h: nat, now: Ticks): Sys
    requires Held(h) in s.owners ==> s.pool.store.Valid() && OwnersOk(s.owners, s.pool.store.used)
  {
    if Held(h) in s.owners then ReturnStep(s, h, s.owners[Held(h)].strategy, now) else s.(clock := now)
  }

  /** Move assignment (or construction, when the target is not usable). */
  ghost function MoveStep(s: Sys, source: nat, target: nat, now: Ticks): Sys
    requires s.pool.store.Valid() && OwnersOk(s.owners, s.pool.store.used)
  {
    var t := DestroyStep(s, target, now);
    if Held(source) in t.owners then Rename(t, Held(source), Held(target)) else t
  }

  function SetNow(h: History, c: CellId, now: Ticks): History {
    h.(setIn := h.setIn[c := h.epoch], setAt := h.setAt[c := now])
  }

  ghost function ResetStep(s: Sys, h: nat, v: Resource, now: Ticks): Sys
    requires s.pool.store.Valid() && OwnersOk(s.owners, s.pool.store.used)
  {
    if Held(h) !in s.owners then s.(clock := now)
    else
      var c := s.owners[Held(h)].cell;
      UsedIsApart(s.pool.store, c);
      s.(pool := s.pool.(store := ResetCell(s.pool.store, c, v, now)), clock := now,
         past := SetNow(s.past, c, now), seen := s.seen + {v})
  }

  /** The value a handle gives access to. */
  ghost function ValueOf(s: Sys, h: nat): Option<Resource>
    requires s.pool.store.Valid() && OwnersOk(s.owners, s.pool.store.used)
  {
    if Held(h) in s.owners then
      UsedIsApart(s.pool.store, s.owners[Held(h)].cell);
      s.pool.store.cells[s.owners[Held(h)].cell].value
    else None
  }

  /** `~pooled_connection`, then the destructor of the handle inside it. */
  ghost function DropConnectionStep(s: Sys, h: nat, bad: bool, idle: bool, now: Ticks): Sys
    requires s.pool.store.Valid() && OwnersOk(s.owners, s.pool.store.used)
  {
    var v := ValueOf(s, h);
    if v.Some? && (bad || !idle) then
      ReturnDrops(s, h, AutoWaste, now);
      DestroyStep(ReturnStep(s, h, AutoWaste, now), h, now).(condemned := s.condemned + {v.value})
    else DestroyStep(s, h, now)
  }

  function TimerStep(s: Sys, context: nat, now: Ticks): Sys
    requires context in s.pool.line.timers && s.pool.line.timers[context].Some?
  {
    s.(pool := s.pool.(line := WaitCompletes(s.pool.line, context)), clock := now,
       fired := s.fired + multiset{s.pool.line.timers[context].value})
  }

  function TimeoutEntries(posted: seq<Waiter>, now: Ticks): (r: seq<Record>)
    ensures |r| == |posted|
    ensures forall i :: 0 <= i < |r| ==> r[i] == Record(posted[i].request.id, TimedOut(posted[i].expiresAt, now))
  {
    seq(|posted|, i requires 0 <= i < |posted| => Record(posted[i].request.id, TimedOut(posted[i].expiresAt, now)))
  }

  function TimeoutStep(s: Sys, at: Ticks, posted: seq<Waiter>, now: Ticks): Sys {
    s.(pool := s.pool.(line := ExpireWaiters(s.pool.line, at)), clock := now,
       fired := s.fired - multiset{at}, log := s.log + TimeoutEntries(posted, now))
  }

  function InvalidateStep(s: Sys): Sys {
    s.(pool := s.pool.(store := InvalidateStore(s.pool.store)), past := s.past.(epoch := s.past.epoch + 1))
  }

  function RefusalEntries(posted: seq<Completion>): (r: seq<Record>)
    requires forall i :: 0 <= i < |posted| ==> posted[i].Failed?
    ensures |r| == |posted|
    ensures forall i :: 0 <= i < |r| ==> r[i] == Record(posted[i].request.id, Refused(posted[i].code))
  {
    seq(|posted|, i requires 0 <= i < |posted| => Record(posted[i].request.id, Refused(posted[i].code)))
  }

  function DisableStep(s: Sys): Sys {
    var (p, posted) := Disable(s.pool);
    s.(pool := p, log := s.log + RefusalEntries(posted))
  }

  ghost function Apply(s: Sys, e: Event): Sys
    requires s.pool.store.Valid() && OwnersOk(s.owners, s.pool.store.used) && Enabled(s, e)
  {
    match e
    case GetEvent(strategy, executor, wait, leaseNow, pushNow) =>
      GetStep(s, strategy, executor, wait, leaseNow, pushNow)
    case AskEvent(strategy, executor, wait, now) => AskStep(s, strategy, executor, wait, now)
    case JoinEvent(ticket, now) => JoinStep(s, ticket, now)
    case DeliverEvent(request, handle) => DeliverStep(s, request, handle)
    case ReturnEvent(h, how, now) => ReturnStep(s, h, how, now)
    case DestroyEvent(h, now) => DestroyStep(s, h, now)
    case MoveEvent(source, target, now) => MoveStep(s, source, target, now)
    case ResetEvent(h, value, now) => ResetStep(s, h, value, now)
    case DropConnectionEvent(h, bad, idle, now) => DropConnectionStep(s, h, bad, idle, now)
    case TimerEvent(context, now) => TimerStep(s, context, now)
    case TimeoutEvent(at, posted, now) => TimeoutStep(s, at, posted, now)
    case InvalidateEvent => InvalidateStep(s)
    case DisableEvent => DisableStep(s)
  }

  // ---------------------------------------------------------------------------------------
  // Pieces of the step proofs.

  lemma AddOwner(owners: map<Owner, Owned>, used: seq<CellId>, o: Owner, w: Owned)
    requires OwnersOk(owners, used) && o !in owners && w.cell !in used
    ensures OwnersOk(owners[o := w], used + [w.cell])
  {
  }

  lemma DropOwner(owners: map<Owner, Owned>, used: seq<CellId>, o: Owner)
    requires OwnersOk(owners, used) && o in owners
    ensures OwnersOk(owners - {o}, Without(used, owners[o].cell))
  {
    var c := owners[o].cell;
    var rest := Without(used, c);
    forall p | p in owners && p != o ensures owners[p].cell in rest {
      assert owners[p].cell in multiset(used) - multiset{c};
    }
    assert owners == (owners - {o})[o := owners[o]];
  }

  lemma SwapOwner(owners: map<Owner, Owned>, used: seq<CellId>, o: Owner, p: Owner, w: Owned)
    requires OwnersOk(owners, used) && o in owners && p !in owners - {o}
    requires w.cell == owners[o].cell
    ensures OwnersOk((owners - {o})[p := w], used)
  {
    assert owners == (owners - {o})[o := owners[o]];
  }

  lemma LogGrows(log: seq<Record>, e: Record)
    ensures LogIds(log + [e]) == LogIds(log) + [e.request]
    ensures forall all :: GrantIds(log + [e], all) == GrantIds(log, all) + if Counted(e, all) then [e.request] else []
  {
    assert (log + [e])[..|log|] == log;
  }

  lemma {:induction false} NoNewGrants(log: seq<Record>, es: seq<Record>, all: bool)
    requires forall i :: 0 <= i < |es| ==> !es[i].outcome.Grant?
    ensures GrantIds(log + es, all) == GrantIds(log, all)
  {
    if es == [] {
      assert log + es == log;
    } else {
      var k := |es| - 1;
      NoNewGrants(log, es[..k], all);
      LogGrows(log + es[..k], es[k]);
      assert log + es == (log + es[..k]) + [es[k]];
    }
  }

  lemma LogGrowsBy(log: seq<Record>, es: seq<Record>)
    requires forall i :: 0 <= i < |es| ==> !es[i].outcome.Grant?
    ensures LogIds(log + es) == LogIds(log) + LogIds(es)
    ensures forall all :: GrantIds(log + es, all) == GrantIds(log, all)
  {
    NoNewGrants(log, es, true);
    NoNewGrants(log, es, false);
  }

  /** A request that is queued, or not made yet, has no completion on record. */
  lemma NotLogged(log: seq<Record>, waiters: seq<Waiter>, issued: nat, r: nat)
    requires LogOk(log, waiters, issued)
    requires r == issued || r in WaiterIds(waiters)
    ensures r !in LogIds(log)
  {
    var all := multiset(LogIds(log)) + multiset(WaiterIds(waiters));
    assert all[r] == Below(issued)[r];
    if r in LogIds(log) {
      assert false;
    }
  }

  lemma IdsWithout(b: seq<Waiter>, k: nat)
    requires k < |b|
    ensures multiset(WaiterIds(b)) == multiset(WaiterIds(b[..k] + b[k + 1..])) + multiset{b[k].request.id}
  {
    assert WaiterIds(b) == WaiterIds(b[..k]) + [b[k].request.id] + WaiterIds(b[k + 1..]);
    assert WaiterIds(b[..k] + b[k + 1..]) == WaiterIds(b[..k]) + WaiterIds(b[k + 1..]);
  }

  /** The same waiters in another order are the same requests in another order. */
  lemma {:induction false} SameIds(a: seq<Waiter>, b: seq<Waiter>)
    requires multiset(a) == multiset(b)
    ensures multiset(WaiterIds(a)) == multiset(WaiterIds(b))
  {
    if a == [] {
      assert |multiset(b)| == 0;
      assert b == [];
    } else {
      assert a[0] in multiset(b);
      var k :| 0 <= k < |b| && b[k] == a[0];
      CutAround(b, k);
      assert a == [a[0]] + a[1..];
      assert multiset(a[1..]) == multiset(a) - multiset{a[0]};
      SameIds(a[1..], b[..k] + b[k + 1..]);
      IdsWithout(a, 0);
      assert a[..0] + a[1..] == a[1..];
      IdsWithout(b, k);
    }
  }

  lemma JoinIds(a: seq<Waiter>, b: seq<Waiter>)
    ensures WaiterIds(a + b) == WaiterIds(a) + WaiterIds(b)
  {
  }

  lemma {:induction false} PendingOrdered(ws: seq<Waiter>, t: Ticks)
    requires Ordered(ws)
    ensures Ordered(Pending(ws, t))
  {
    if ws == [] {
    } else {
      PendingOrdered(ws[1..], t);
      var rest := Pending(ws[1..], t);
      forall i | 0 <= i < |rest| ensures ws[0].request.id < rest[i].request.id {
        assert rest[i] in ws[1..];
      }
    }
  }

  /** Updating the timers leaves the earliest waiter armed. */
  lemma RearmArms(q: Line, fired: multiset<Ticks>)
    ensures ArmedOk(Rearm(q), fired)
    ensures Rearm(q).waiters == q.waiters && Rearm(q).capacity == q.capacity
  {
  }

  // ---------------------------------------------------------------------------------------
  // Giving a cell back.

  /** `b` is `a` after cell `c` was given back at `now`: idle again, or kept in use for the next waiter. */
  ghost predicate GaveBack(a: Store, b: Store, c: CellId, now: Ticks) {
    && b.cells.Keys == a.cells.Keys && c in a.cells
    && b.lifespan == a.lifespan && b.idleTimeout == a.idleTimeout
    && (b.cells[c].value == a.cells[c].value || b.cells[c].value == None)
    && (b.cells[c].value.Some? ==> IsValid(a, c, now))
    && (b.cells[c].wasteOnRecycle == a.cells[c].wasteOnRecycle && b.cells[c].resetTime == a.cells[c].resetTime)
    && (c in b.available ==> b.cells[c].dropTime == Earlier(Add(now, b.idleTimeout), b.LifeEnd(c)))
    && (forall d :: d in a.cells && d != c ==> SameCell(a, b, d))
  }

  ghost predicate SameCell(a: Store, b: Store, d: CellId) {
    && d in a.cells && d in b.cells
    && a.cells[d] == b.cells[d] && (d in a.available <==> d in b.available)
  }

  /** What giving a cell back does to the storage. */
  lemma GiveBackStore(p: PoolState, c: CellId, how: Strategy, now: Ticks)
    requires p.store.Valid() && c in p.store.used
    ensures p.store.Has(c) && c !in p.store.available
    ensures var t := GiveBack(p, c, how, now).0.store;
            && t.Valid()
            && GaveBack(p.store, t, c, now)
            && (how == AutoWaste ==> t.cells[c].value == None)
            && (if p.line.waiters == [] then t.used == Without(p.store.used, c)
                else t.used == p.store.used && t.available == p.store.available && t.wasted == p.store.wasted)
  {
    UsedIsApart(p.store, c);
    RecycleKeepsValid(p.store, c, now);
    WasteKeepsValid(p.store, c);
    HeldCellWrites(p.store, c, p.store.cells[c].(value := None));
    var t := GiveBack(p, c, how, now).0.store;
    forall d | d in p.store.cells && d != c ensures SameCell(p.store, t, d) {}
  }

  lemma ReturnOwners(s: Sys, h: nat, how: Strategy, now: Ticks)
    requires s.pool.store.Valid() && OwnersOk(s.owners, s.pool.store.used)
    requires s.pool.line.waiters != [] ==> InFlight(s.pool.line.waiters[0].request.id) !in s.owners
    ensures var t := ReturnStep(s, h, how, now); t.pool.store.Valid() && OwnersOk(t.owners, t.pool.store.used)
  {
    if Held(h) in s.owners {
      var c := s.owners[Held(h)].cell;
      GiveBackStore(s.pool, c, how, now);
      if s.pool.line.waiters == [] {
        DropOwner(s.owners, s.pool.store.used, Held(h));
      } else {
        var r := s.pool.line.waiters[0].request;
        SwapOwner(s.owners, s.pool.store.used, Held(h), InFlight(r.id), Owned(c, r.strategy));
      }
    }
  }

  lemma ReturnFlight(s: Sys, h: nat, how: Strategy, now: Ticks)
    requires s.pool.store.Valid() && OwnersOk(s.owners, s.pool.store.used) && FlightOk(s.owners, s.log)
    ensures var t := ReturnStep(s, h, how, now); FlightOk(t.owners, t.log)
  {
    var t := ReturnStep(s, h, how, now);
    if |t.log| > |s.log| {
      LogGrows(s.log, t.log[|s.log|]);
    }
  }

  lemma HeadNotInFlight(s: Sys)
    requires FlightOk(s.owners, s.log) && LogOk(s.log, s.pool.line.waiters, s.issued)
    ensures s.pool.line.waiters != [] ==> InFlight(s.pool.line.waiters[0].request.id) !in s.owners
  {
    var ws := s.pool.line.waiters;
    if ws != [] {
      assert ws[0].request.id == WaiterIds(ws)[0];
      NotLogged(s.log, ws, s.issued, ws[0].request.id);
    }
  }

  lemma PopLine(line: Line, issued: nat, fired: multiset<Ticks>)
    requires LineOk(line, issued) && ArmedOk(line, fired)
    ensures LineOk(PopWaiter(line), issued) && ArmedOk(PopWaiter(line), fired)
    ensures PopWaiter(line).waiters == if line.waiters == [] then [] else line.waiters[1..]
  {
    if line.waiters != [] {
      RearmArms(line.(waiters := line.waiters[1..]), fired);
    }
  }

  lemma ReturnLine(s: Sys, h: nat, how: Strategy, now: Ticks)
    requires s.pool.store.Valid() && OwnersOk(s.owners, s.pool.store.used)
    requires QueueInv(s) && s.clock <= now
    ensures QueueInv(ReturnStep(s, h, how, now))
    ensures IdleOk(s.pool) ==> IdleOk(ReturnStep(s, h, how, now).pool)
  {
    if Held(h) in s.owners {
      GiveBackStore(s.pool, s.owners[Held(h)].cell, how, now);
      PopLine(s.pool.line, s.issued, s.fired);
    }
  }

  /** The first waiter's request moves from the queue to the record. */
  lemma HeadLogged(log: seq<Record>, waiters: seq<Waiter>, issued: nat, e: Record)
    requires LogOk(log, waiters, issued)
    requires waiters != [] && e.request == waiters[0].request.id
    ensures LogOk(log + [e], waiters[1..], issued)
  {
    LogGrows(log, e);
    assert WaiterIds(waiters) == [waiters[0].request.id] + WaiterIds(waiters[1..]);
  }

  lemma HeadFifo(log: seq<Record>, waiters: seq<Waiter>, issued: nat, e: Record, all: bool)
    requires FifoOk(log, waiters, issued, all) && Ordered(waiters)
    requires waiters != [] && e.request == waiters[0].request.id < issued
    ensures FifoOk(log + [e], waiters[1..], issued, all)
  {
    LogGrows(log, e);
    var grants := GrantIds(log + [e], all);
    forall i, j | 0 <= i < j < |grants|
      ensures grants[i] < grants[j]
    {
      assert grants[i] in GrantIds(log, all);
    }
    forall r, i | r in grants && 0 <= i < |waiters[1..]|
      ensures r < waiters[1..][i].request.id
    {
      assert waiters[1..][i] == waiters[i + 1];
    }
  }

  lemma ReturnLog(s: Sys, h: nat, how: Strategy, now: Ticks)
    requires s.pool.store.Valid() && OwnersOk(s.owners, s.pool.store.used)
    requires LogOk(s.log, s.pool.line.waiters, s.issued)
    ensures var t := ReturnStep(s, h, how, now); LogOk(t.log, t.pool.line.waiters, t.issued)
  {
    if Held(h) in s.owners && s.pool.line.waiters != [] {
      HeadLogged(s.log, s.pool.line.waiters, s.issued, ReturnStep(s, h, how, now).log[|s.log|]);
      RearmArms(s.pool.line.(waiters := s.pool.line.waiters[1..]), s.fired);
    }
  }

  lemma ReturnFifo(s: Sys, h: nat, how: Strategy, now: Ticks, all: bool)
    requires s.pool.store.Valid() && OwnersOk(s.owners, s.pool.store.used)
    requires FifoOk(s.log, s.pool.line.waiters, s.issued, all) && LineOk(s.pool.line, s.issued)
    ensures var t := ReturnStep(s, h, how, now); FifoOk(t.log, t.pool.line.waiters, t.issued, all)
  {
    if Held(h) in s.owners && s.pool.line.waiters != [] {
      HeadFifo(s.log, s.pool.line.waiters, s.issued, ReturnStep(s, h, how, now).log[|s.log|], all);
      RearmArms(s.pool.line.(waiters := s.pool.line.waiters[1..]), s.fired);
    }
  }

  lemma GaveBackFresh(a: Store, b: Store, c: CellId, now: Ticks, h: History)
    requires FreshOk(a, h) && GaveBack(a, b, c, now) && c !in a.available
    ensures FreshOk(b, h.(idleSince := h.idleSince[c := now]))
    ensures c !in b.available ==> FreshOk(b, h)
  {
    assert FreshCell(a, h, c);
    forall d | d in b.cells
      ensures FreshCell(b, h.(idleSince := h.idleSince[c := now]), d)
      ensures c !in b.available ==> FreshCell(b, h, d)
    {
      assert FreshCell(a, h, d);
      assert d == c || SameCell(a, b, d);
    }
  }

  lemma GaveBackValues(a: Store, b: Store, c: CellId, now: Ticks, seen: set<Resource>, condemned: set<Resource>)
    requires ValuesOk(a, seen, condemned) && GaveBack(a, b, c, now)
    ensures ValuesOk(b, seen, condemned)
  {
    forall d | d in b.cells
      ensures d in a.cells && (b.cells[d].value == a.cells[d].value || b.cells[d].value == None)
    {
      assert d == c || SameCell(a, b, d);
    }
  }

  lemma ReturnFresh(s: Sys, h: nat, how: Strategy, now: Ticks)
    requires s.pool.store.Valid() && OwnersOk(s.owners, s.pool.store.used) && FreshOk(s.pool.store, s.past)
    ensures var t := ReturnStep(s, h, how, now); FreshOk(t.pool.store, t.past)
  {
    if Held(h) in s.owners {
      var c := s.owners[Held(h)].cell;
      GiveBackStore(s.pool, c, how, now);
      GaveBackFresh(s.pool.store, ReturnStep(s, h, how, now).pool.store, c, now, s.past);
    }
  }

  /** Whatever is given back, values in flight that are marked stay the old ones. */
  lemma GaveBackMarked(a: Store, b: Store, c: CellId, now: Ticks, h: History, d: CellId)
    requires GaveBack(a, b, c, now) && (d == c || MarkedIsOld(a, h, d))
    ensures MarkedIsOld(b, h, d) && MarkedIsOld(b, h.(idleSince := h.idleSince[c := now]), d)
  {
    if d in a.cells && d != c {
      assert SameCell(a, b, d);
    }
  }

  lemma ReturnFlightFresh(s: Sys, h: nat, how: Strategy, now: Ticks)
    requires s.pool.store.Valid() && OwnersOk(s.owners, s.pool.store.used)
    requires FlightFresh(s.owners, s.pool.store, s.past)
    ensures var t := ReturnStep(s, h, how, now); FlightFresh(t.owners, t.pool.store, t.past)
  {
    if Held(h) in s.owners {
      var c := s.owners[Held(h)].cell;
      var t := ReturnStep(s, h, how, now);
      GiveBackStore(s.pool, c, how, now);
      forall r | InFlight(r) in t.owners
        ensures MarkedIsOld(t.pool.store, t.past, t.owners[InFlight(r)].cell)
      {
        GaveBackMarked(s.pool.store, t.pool.store, c, now, s.past, t.owners[InFlight(r)].cell);
      }
    }
  }

  lemma ReturnRecords(s: Sys, h: nat, how: Strategy, now: Ticks)
    requires s.pool.store.Valid() && OwnersOk(s.owners, s.pool.store.used)
    requires FreshOk(s.pool.store, s.past) && RecordsOk(s.log)
    ensures RecordsOk(ReturnStep(s, h, how, now).log)
  {
    if Held(h) in s.owners && s.pool.line.waiters != [] {
      var c := s.owners[Held(h)].cell;
      GiveBackStore(s.pool, c, how, now);
      assert FreshCell(s.pool.store, s.past, c);
      assert RecordOk(ReturnStep(s, h, how, now).log[|s.log|]);
    }
  }

  lemma ReturnValues(s: Sys, h: nat, how: Strategy, now: Ticks)
    requires s.pool.store.Valid() && OwnersOk(s.owners, s.pool.store.used)
    requires ValuesOk(s.pool.store, s.seen, s.condemned)
    ensures var t := ReturnStep(s, h, how, now); ValuesOk(t.pool.store, t.seen, t.condemned)
  {
    if Held(h) in s.owners {
      var c := s.owners[Held(h)].cell;
      GiveBackStore(s.pool, c, how, now);
      GaveBackValues(s.pool.store, ReturnStep(s, h, how, now).pool.store, c, now, s.seen, s.condemned);
    }
  }

  lemma ReturnKeepsInv(s: Sys, h: nat, how: Strategy, now: Ticks)
    requires Inv(s) && s.clock <= now
    ensures Inv(ReturnStep(s, h, how, now))
  {
    HeadNotInFlight(s);
    ReturnOwners(s, h, how, now);
    ReturnFlight(s, h, how, now);
    ReturnLine(s, h, how, now);
    ReturnLog(s, h, how, now);
    ReturnFifo(s, h, how, now, false);
    ReturnFresh(s, h, how, now);
    ReturnFlightFresh(s, h, how, now);
    ReturnRecords(s, h, how, now);
    ReturnValues(s, h, how, now);
  }

  lemma ReturnKeepsStrict(s: Sys, h: nat, how: Strategy, now: Ticks)
    requires Inv(s) && Strict(s) && s.clock <= now
    ensures Strict(ReturnStep(s, h, how, now))
  {
    ReturnLine(s, h, how, now);
    ReturnFifo(s, h, how, now, true);
  }

  // ---------------------------------------------------------------------------------------
  // Asking for a cell.

  /** A request completed as soon as it is decided. */
  lemma NewLogged(log: seq<Record>, waiters: seq<Waiter>, issued: nat, e: Record)
    requires LogOk(log, waiters, issued) && e.request == issued
    ensures LogOk(log + [e], waiters, issued + 1)
  {
    LogGrows(log, e);
  }

  lemma NewFifo(log: seq<Record>, waiters: seq<Waiter>, issued: nat, e: Record, all: bool)
    requires FifoOk(log, waiters, issued, all) && e.request == issued
    requires Counted(e, all) ==> waiters == []
    ensures FifoOk(log + [e], waiters, issued + 1, all)
  {
    LogGrows(log, e);
    var grants := GrantIds(log + [e], all);
    forall i, j | 0 <= i < j < |grants|
      ensures grants[i] < grants[j]
    {
      assert grants[i] in GrantIds(log, all);
    }
  }

  /** A request joins the queue. */
  lemma QueuedLog(log: seq<Record>, waiters: seq<Waiter>, issued: nat, w: Waiter)
    requires LogOk(log, waiters, issued) && w.request.id == issued
    ensures LogOk(log, waiters + [w], issued + 1)
  {
    assert WaiterIds(waiters + [w]) == WaiterIds(waiters) + [issued];
  }

  lemma QueuedFifo(log: seq<Record>, waiters: seq<Waiter>, issued: nat, w: Waiter, all: bool)
    requires FifoOk(log, waiters, issued, all) && w.request.id == issued
    ensures FifoOk(log, waiters + [w], issued + 1, all)
  {
    var more := waiters + [w];
    forall r, i | r in GrantIds(log, all) && 0 <= i < |more|
      ensures r < more[i].request.id
    {
      assert i < |waiters| ==> more[i] == waiters[i];
    }
  }

  lemma LeaseFresh(a: Store, now: Ticks, h: History)
    requires a.Valid() && FreshOk(a, h)
    ensures FreshOk(Lease(a, now).0, h)
  {
    LeaseDelivers(a, now);
    var b := Lease(a, now).0;
    PartitionMeaning(b);
    forall d | b.Has(d)
      ensures FreshCell(b, h, d)
    {
      LeaseKeepsValid(a, now);
      LeaseTouches(a, now, d);
      assert FreshCell(a, h, d);
    }
  }

  lemma LeaseValues(a: Store, now: Ticks, seen: set<Resource>, condemned: set<Resource>)
    requires a.Valid() && ValuesOk(a, seen, condemned)
    ensures ValuesOk(Lease(a, now).0, seen, condemned)
  {
    LeaseKeepsValid(a, now);
    var b := Lease(a, now).0;
    forall d | b.Has(d)
      ensures a.Has(d) && (b.cells[d].value == a.cells[d].value || b.cells[d].value == None)
    {
      LeaseTouches(a, now, d);
    }
  }

  /** What a `get` that leases cell `c` records. */
  ghost function LeaseRecord(s: Sys, c: CellId, now: Ticks): Record
    requires s.pool.store.Valid() && Lease(s.pool.store, now).0.Has(c)
  {
    var b := Lease(s.pool.store, now).0;
    Record(s.issued, Grant(c, b.cells[c].value, EvidenceOf(s, c, Some(IdleEnd(s, c)), now)))
  }

  lemma LeaseEvidence(s: Sys, now: Ticks, c: CellId)
    requires s.pool.store.Valid() && FreshOk(s.pool.store, s.past) && Lease(s.pool.store, now).1 == Some(c)
    ensures Lease(s.pool.store, now).0.Has(c) && RecordOk(LeaseRecord(s, c, now))
  {
    LeaseDelivers(s.pool.store, now);
    assert FreshCell(s.pool.store, s.past, c);
  }

  /** The state after a lease of `c`. */
  ghost function LeasedStep(s: Sys, strategy: Strategy, leaseNow: Ticks, clock: Ticks, c: CellId): Sys
    requires s.pool.store.Valid() && Lease(s.pool.store, leaseNow).0.Has(c)
  {
    s.(pool := s.pool.(store := Lease(s.pool.store, leaseNow).0),
       asked := s.asked + 1, issued := s.issued + 1, clock := clock,
       owners := s.owners[InFlight(s.issued) := Owned(c, strategy)],
       log := s.log + [LeaseRecord(s, c, leaseNow)])
  }

  lemma LeasedForm(
    s: Sys, strategy: Strategy, executor: Executor, wait: Ticks, leaseNow: Ticks, pushNow: Ticks, c: CellId)
    requires s.pool.store.Valid() && !s.pool.disabled && Lease(s.pool.store, leaseNow).1 == Some(c)
    ensures Lease(s.pool.store, leaseNow).0.Has(c)
    ensures GetStep(s, strategy, executor, wait, leaseNow, pushNow) == LeasedStep(s, strategy, leaseNow, pushNow, c)
  {
    LeaseDelivers(s.pool.store, leaseNow);
    assert Lease(s.pool.store, leaseNow).0.lifespan == s.pool.store.lifespan;
  }

  lemma LeasedOwners(s: Sys, now: Ticks, c: CellId, strategy: Strategy)
    requires CellsInv(s) && LogInv(s) && Lease(s.pool.store, now).1 == Some(c)
    ensures var owners := s.owners[InFlight(s.issued) := Owned(c, strategy)];
            var b := Lease(s.pool.store, now).0;
            b.Has(c) && OwnersOk(owners, b.used) && FlightOk(owners, s.log + [LeaseRecord(s, c, now)])
  {
    LeaseDelivers(s.pool.store, now);
    NotLogged(s.log, s.pool.line.waiters, s.issued, s.issued);
    AddOwner(s.owners, s.pool.store.used, InFlight(s.issued), Owned(c, strategy));
    LogGrows(s.log, LeaseRecord(s, c, now));
  }

  lemma LeasedFlightFresh(s: Sys, now: Ticks, c: CellId, strategy: Strategy)
    requires s.pool.store.Valid() && OwnersOk(s.owners, s.pool.store.used)
    requires FlightFresh(s.owners, s.pool.store, s.past) && Lease(s.pool.store, now).1 == Some(c)
    ensures FlightFresh(s.owners[InFlight(s.issued) := Owned(c, strategy)], Lease(s.pool.store, now).0, s.past)
  {
    LeaseDelivers(s.pool.store, now);
    var owners := s.owners[InFlight(s.issued) := Owned(c, strategy)];
    forall r | InFlight(r) in owners && owners[InFlight(r)].cell != c
      ensures MarkedIsOld(Lease(s.pool.store, now).0, s.past, owners[InFlight(r)].cell)
    {
      var d := s.owners[InFlight(r)].cell;
      UsedIsApart(s.pool.store, d);
      LeaseTouches(s.pool.store, now, d);
    }
  }

  lemma LeasedCells(s: Sys, strategy: Strategy, leaseNow: Ticks, clock: Ticks, c: CellId)
    requires CellsInv(s) && LogInv(s) && Lease(s.pool.store, leaseNow).1 == Some(c)
    ensures Lease(s.pool.store, leaseNow).0.Has(c) && CellsInv(LeasedStep(s, strategy, leaseNow, clock, c))
  {
    LeaseKeepsValid(s.pool.store, leaseNow);
    LeaseFresh(s.pool.store, leaseNow, s.past);
    LeaseValues(s.pool.store, leaseNow, s.seen, s.condemned);
    LeasedOwners(s, leaseNow, c, strategy);
    LeasedFlightFresh(s, leaseNow, c, strategy);
  }

  lemma LeasedKeepsInv(s: Sys, strategy: Strategy, leaseNow: Ticks, clock: Ticks, c: CellId)
    requires Inv(s) && s.clock <= clock && Lease(s.pool.store, leaseNow).1 == Some(c)
    ensures Lease(s.pool.store, leaseNow).0.Has(c) && Inv(LeasedStep(s, strategy, leaseNow, clock, c))
  {
    LeasedCells(s, strategy, leaseNow, clock, c);
    LeaseEvidence(s, leaseNow, c);
    var t := LeasedStep(s, strategy, leaseNow, clock, c);
    DecidedQueue(s, t);
    DecidedLogInv(s, t, LeaseRecord(s, c, leaseNow));
  }

  lemma DecidedLogInv(s: Sys, t: Sys, e: Record)
    requires LogInv(s) && t.pool.line == s.pool.line && t.issued == s.issued + 1 && t.log == s.log + [e]
    requires e.request == s.issued && RecordOk(e) && !Counted(e, false)
    ensures LogInv(t)
  {
    DecidedLog(s.log, s.pool.line.waiters, s.issued, e);
  }

  lemma DecidedLog(log: seq<Record>, waiters: seq<Waiter>, issued: nat, e: Record)
    requires LogOk(log, waiters, issued) && FifoOk(log, waiters, issued, false) && RecordsOk(log)
    requires e.request == issued && RecordOk(e) && !Counted(e, false)
    ensures var more := log + [e];
            LogOk(more, waiters, issued + 1) && FifoOk(more, waiters, issued + 1, false) && RecordsOk(more)
  {
    NewLogged(log, waiters, issued, e);
    NewFifo(log, waiters, issued, e, false);
  }

  lemma LeasedKeepsStrict(s: Sys, strategy: Strategy, leaseNow: Ticks, clock: Ticks, c: CellId)
    requires s.pool.store.Valid() && Strict(s) && Lease(s.pool.store, leaseNow).1 == Some(c)
    ensures Lease(s.pool.store, leaseNow).0.Has(c) && Strict(LeasedStep(s, strategy, leaseNow, clock, c))
  {
    LeaseDelivers(s.pool.store, leaseNow);
    assert s.pool.line.waiters == [] by {
      LeaseFailsOnlyWhenAllUsed(s.pool.store, leaseNow);
    }
    NewFifo(s.log, [], s.issued, LeaseRecord(s, c, leaseNow), true);
  }

  /** The state after request `issued` is refused on the spot. */
  function RefusedStep(s: Sys, code: Code): Sys {
    s.(issued := s.issued + 1, log := s.log + [Record(s.issued, Refused(code))])
  }

  /** A request that was made now, or joins now, is refused. */
  lemma RefusedKeepsInv(s: Sys, code: Code, asked: nat, joining: map<nat, Joining>, clock: Ticks)
    requires Inv(s) && s.clock <= clock && JoinOk(joining, asked, s.issued + 1)
    ensures Inv(RefusedStep(s, code).(asked := asked, joining := joining, clock := clock))
  {
    var e := Record(s.issued, Refused(code));
    var t := RefusedStep(s, code).(asked := asked, joining := joining, clock := clock);
    FlightGrows(s.owners, s.log, e);
    SameCells(s, t);
    DecidedQueue(s, t);
    DecidedLogInv(s, t, e);
  }

  lemma DecidedQueue(s: Sys, t: Sys)
    requires QueueInv(s) && t.pool.line == s.pool.line && t.fired == s.fired && t.issued == s.issued + 1
    requires s.clock <= t.clock && JoinOk(t.joining, t.asked, t.issued)
    ensures QueueInv(t)
  {
  }

  lemma FlightGrows(owners: map<Owner, Owned>, log: seq<Record>, e: Record)
    requires FlightOk(owners, log)
    ensures FlightOk(owners, log + [e])
  {
    LogGrows(log, e);
  }

  lemma RefusedKeepsStrict(s: Sys, code: Code)
    requires Strict(s)
    ensures Strict(RefusedStep(s, code))
  {
    NewFifo(s.log, s.pool.line.waiters, s.issued, Record(s.issued, Refused(code)), true);
  }

  lemma PushLine(line: Line, issued: nat, w: Waiter, fired: multiset<Ticks>)
    requires LineOk(line, issued) && w.request.id == issued && |line.waiters| < line.capacity
    ensures LineOk(PushWaiter(line, w), issued + 1) && ArmedOk(PushWaiter(line, w), fired)
    ensures PushWaiter(line, w).waiters == line.waiters + [w]
  {
    RearmArms(line.(waiters := line.waiters + [w]), fired);
  }

  function QueuedStep(s: Sys, w: Waiter): Sys {
    s.(pool := s.pool.(line := PushWaiter(s.pool.line, w)), issued := s.issued + 1)
  }

  lemma QueuedKeepsInv(s: Sys, w: Waiter, asked: nat, joining: map<nat, Joining>, clock: Ticks)
    requires Inv(s) && s.clock <= clock && JoinOk(joining, asked, s.issued + 1)
    requires w.request.id == s.issued && |s.pool.line.waiters| < s.pool.line.capacity
    ensures Inv(QueuedStep(s, w).(asked := asked, joining := joining, clock := clock))
  {
    var t := QueuedStep(s, w).(asked := asked, joining := joining, clock := clock);
    SameCells(s, t);
    QueuedQueue(s, w, asked, joining, clock);
    QueuedLogInv(s, t, w);
  }

  /** Whatever happens to the queue and the record alone does nothing to the cells. */
  lemma SameCells(s: Sys, t: Sys)
    requires CellsInv(s) && t.pool.store == s.pool.store && t.owners == s.owners && FlightOk(t.owners, t.log)
    requires t.past == s.past && t.seen == s.seen && t.condemned == s.condemned
    ensures CellsInv(t)
  {
  }

  lemma QueuedQueue(s: Sys, w: Waiter, asked: nat, joining: map<nat, Joining>, clock: Ticks)
    requires QueueInv(s) && s.clock <= clock && JoinOk(joining, asked, s.issued + 1)
    requires w.request.id == s.issued && |s.pool.line.waiters| < s.pool.line.capacity
    ensures QueueInv(QueuedStep(s, w).(asked := asked, joining := joining, clock := clock))
  {
    PushLine(s.pool.line, s.issued, w, s.fired);
  }

  lemma QueuedLogInv(s: Sys, t: Sys, w: Waiter)
    requires LogInv(s) && w.request.id == s.issued && t.issued == s.issued + 1 && t.log == s.log
    requires |s.pool.line.waiters| < s.pool.line.capacity && t.pool.line == PushWaiter(s.pool.line, w)
    ensures LogInv(t)
  {
    RearmArms(s.pool.line.(waiters := s.pool.line.waiters + [w]), multiset{});
    QueuedInLog(s.log, s.pool.line.waiters, s.issued, w);
  }

  lemma QueuedInLog(log: seq<Record>, waiters: seq<Waiter>, issued: nat, w: Waiter)
    requires LogOk(log, waiters, issued) && FifoOk(log, waiters, issued, false) && w.request.id == issued
    ensures LogOk(log, waiters + [w], issued + 1) && FifoOk(log, waiters + [w], issued + 1, false)
  {
    QueuedLog(log, waiters, issued, w);
    QueuedFifo(log, waiters, issued, w, false);
  }

  /** A request that is queued because every cell is in use leaves nobody beside an idle cell. */
  lemma QueuedKeepsStrict(s: Sys, w: Waiter)
    requires Strict(s) && LineOk(s.pool.line, s.issued) && w.request.id == s.issued
    requires |s.pool.line.waiters| < s.pool.line.capacity
    requires s.pool.store.available == [] && s.pool.store.wasted == [] && !s.pool.disabled
    ensures Strict(QueuedStep(s, w))
  {
    QueuedFifo(s.log, s.pool.line.waiters, s.issued, w, true);
    PushLine(s.pool.line, s.issued, w, s.fired);
  }

  /** Why a request that gets no cell and no place in the queue is refused. */
  function RefusalCode(p: PoolState, wait: Ticks): Code {
    if p.disabled then Disabled else if wait == 0 then GetResourceTimeout else RequestQueueOverflow
  }

  /** A request that gets no cell is refused or queued; nothing else changes. */
  lemma NotLeasedForm(s: Sys, strategy: Strategy, executor: Executor, wait: Ticks, leaseNow: Ticks, pushNow: Ticks)
    requires s.pool.store.Valid()
    requires s.pool.disabled || Lease(s.pool.store, leaseNow).1 == None
    ensures var t := GetStep(s, strategy, executor, wait, leaseNow, pushNow);
            if Undecided(s.pool, wait, leaseNow) && |s.pool.line.waiters| < s.pool.line.capacity then
              var w := Waiter(Request(s.issued, strategy), executor, Add(pushNow, wait));
              t == QueuedStep(s, w).(asked := s.asked + 1, clock := pushNow)
            else
              t == RefusedStep(s, RefusalCode(s.pool, wait)).(asked := s.asked + 1, clock := pushNow)
    ensures Undecided(s.pool, wait, leaseNow) ==> s.pool.store.available == [] && s.pool.store.wasted == []
  {
    LeaseFailsOnlyWhenAllUsed(s.pool.store, leaseNow);
    NotLeasedGet(s.pool, Request(s.issued, strategy), executor, wait, leaseNow, pushNow);
  }

  lemma NotLeasedGet(p: PoolState, r: Request, executor: Executor, wait: Ticks, leaseNow: Ticks, pushNow: Ticks)
    requires p.store.Valid() && (p.disabled || Lease(p.store, leaseNow).1 == None)
    ensures Get(p, r, executor, wait, leaseNow, pushNow) ==
            if Undecided(p, wait, leaseNow) && |p.line.waiters| < p.line.capacity then
              (p.(line := PushWaiter(p.line, Waiter(r, executor, Add(pushNow, wait)))), None)
            else
              (p, Some(Failed(r, RefusalCode(p, wait))))
  {
    LeaseFailsOnlyWhenAllUsed(p.store, leaseNow);
  }

  lemma GetKeepsInv(s: Sys, strategy: Strategy, executor: Executor, wait: Ticks, leaseNow: Ticks, pushNow: Ticks)
    requires Inv(s) && s.clock <= leaseNow <= pushNow
    ensures Inv(GetStep(s, strategy, executor, wait, leaseNow, pushNow))
    ensures Strict(s) ==> Strict(GetStep(s, strategy, executor, wait, leaseNow, pushNow))
  {
    if !s.pool.disabled && Lease(s.pool.store, leaseNow).1.Some? {
      var c := Lease(s.pool.store, leaseNow).1.value;
      LeasedForm(s, strategy, executor, wait, leaseNow, pushNow, c);
      LeasedKeepsInv(s, strategy, leaseNow, pushNow, c);
      if Strict(s) {
        LeasedKeepsStrict(s, strategy, leaseNow, pushNow, c);
      }
    } else {
      NotLeasedKeepsInv(s, strategy, executor, wait, leaseNow, pushNow);
    }
  }

  lemma NotLeasedKeepsInv(s: Sys, strategy: Strategy, executor: Executor, wait: Ticks, leaseNow: Ticks, pushNow: Ticks)
    requires Inv(s) && s.clock <= leaseNow <= pushNow
    requires s.pool.disabled || Lease(s.pool.store, leaseNow).1 == None
    ensures Inv(GetStep(s, strategy, executor, wait, leaseNow, pushNow))
    ensures Strict(s) ==> Strict(GetStep(s, strategy, executor, wait, leaseNow, pushNow))
  {
    NotLeasedForm(s, strategy, executor, wait, leaseNow, pushNow);
    if Undecided(s.pool, wait, leaseNow) && |s.pool.line.waiters| < s.pool.line.capacity {
      var w := Waiter(Request(s.issued, strategy), executor, Add(pushNow, wait));
      QueuedKeepsInv(s, w, s.asked + 1, s.joining, pushNow);
      if Strict(s) {
        QueuedKeepsStrict(s, w);
      }
    } else {
      RefusedKeepsInv(s, RefusalCode(s.pool, wait), s.asked + 1, s.joining, pushNow);
      if Strict(s) {
        RefusedKeepsStrict(s, RefusalCode(s.pool, wait));
      }
    }
  }

  lemma AskForm(s: Sys, strategy: Strategy, executor: Executor, wait: Ticks, now: Ticks)
    requires s.pool.store.Valid()
    ensures AskStep(s, strategy, executor, wait, now) ==
            if Undecided(s.pool, wait, now) then
              s.(joining := s.joining[s.asked := Joining(strategy, executor, wait)], asked := s.asked + 1, clock := now)
            else GetStep(s, strategy, executor, wait, now, now)
  {
    AskMeets(s.pool, Request(s.issued, strategy), executor, wait, now);
  }

  lemma AskMeets(p: PoolState, r: Request, executor: Executor, wait: Ticks, now: Ticks)
    requires p.store.Valid()
    ensures Undecided(p, wait, now) ==> Ask(p, r, wait, now) == (p, None)
    ensures !Undecided(p, wait, now) ==>
              Ask(p, r, wait, now).1.Some? && Get(p, r, executor, wait, now, now) == Ask(p, r, wait, now)
  {
    LeaseFailsOnlyWhenAllUsed(p.store, now);
  }

  lemma OneMoreJoins(joining: map<nat, Joining>, asked: nat, issued: nat, j: Joining)
    requires JoinOk(joining, asked, issued)
    ensures JoinOk(joining[asked := j], asked + 1, issued)
  {
  }

  lemma AskKeepsInv(s: Sys, strategy: Strategy, executor: Executor, wait: Ticks, now: Ticks)
    requires Inv(s) && s.clock <= now
    ensures Inv(AskStep(s, strategy, executor, wait, now))
  {
    AskForm(s, strategy, executor, wait, now);
    if Undecided(s.pool, wait, now) {
      OneMoreJoins(s.joining, s.asked, s.issued, Joining(strategy, executor, wait));
      SameCells(s, AskStep(s, strategy, executor, wait, now));
    } else {
      GetKeepsInv(s, strategy, executor, wait, now, now);
    }
  }

  lemma OneJoins(joining: map<nat, Joining>, asked: nat, issued: nat, ticket: nat)
    requires JoinOk(joining, asked, issued) && ticket in joining
    ensures JoinOk(joining - {ticket}, asked, issued + 1)
  {
    assert joining == (joining - {ticket})[ticket := joining[ticket]];
  }

  /** The waiter that a joining request becomes. */
  function JoiningWaiter(s: Sys, ticket: nat, now: Ticks): Waiter
    requires ticket in s.joining
  {
    var j := s.joining[ticket];
    Waiter(Request(s.issued, j.strategy), j.executor, Add(now, j.wait))
  }

  lemma JoinForm(s: Sys, ticket: nat, now: Ticks)
    requires ticket in s.joining
    ensures var step := if |s.pool.line.waiters| >= s.pool.line.capacity then RefusedStep(s, RequestQueueOverflow)
                        else QueuedStep(s, JoiningWaiter(s, ticket, now));
            JoinStep(s, ticket, now) == step.(asked := s.asked, joining := s.joining - {ticket}, clock := now)
  {
  }

  lemma JoinKeepsInv(s: Sys, ticket: nat, now: Ticks)
    requires Inv(s) && s.clock <= now && ticket in s.joining
    ensures Inv(JoinStep(s, ticket, now))
  {
    JoinForm(s, ticket, now);
    OneJoins(s.joining, s.asked, s.issued, ticket);
    if |s.pool.line.waiters| >= s.pool.line.capacity {
      RefusedKeepsInv(s, RequestQueueOverflow, s.asked, s.joining - {ticket}, now);
    } else {
      QueuedKeepsInv(s, JoiningWaiter(s, ticket, now), s.asked, s.joining - {ticket}, now);
    }
  }

  /** With nothing between them, the two halves are the whole. */
  lemma HalvesMakeGet(s: Sys, strategy: Strategy, executor: Executor, wait: Ticks, leaseNow: Ticks, pushNow: Ticks)
    requires s.pool.store.Valid() && s.asked !in s.joining && Undecided(s.pool, wait, leaseNow)
    ensures var t := AskStep(s, strategy, executor, wait, leaseNow);
            && s.asked in t.joining
            && JoinStep(t, s.asked, pushNow) == GetStep(s, strategy, executor, wait, leaseNow, pushNow)
  {
    AskForm(s, strategy, executor, wait, leaseNow);
    var t := AskStep(s, strategy, executor, wait, leaseNow);
    JoinForm(t, s.asked, pushNow);
    assert t.joining - {s.asked} == s.joining;
    NotLeasedForm(s, strategy, executor, wait, leaseNow, pushNow);
  }

  // ---------------------------------------------------------------------------------------
  // Handles.

  lemma RenameKeepsInv(s: Sys, o: Owner, p: Owner)
    requires Inv(s) && o in s.owners && p !in s.owners - {o} && p.Held?
    ensures Inv(Rename(s, o, p))
  {
    SwapOwner(s.owners, s.pool.store.used, o, p, s.owners[o]);
  }

  lemma ResetStore(
    a: Store, c: CellId, v: Resource, now: Ticks, seen: set<Resource>, condemned: set<Resource>, h: History)
    requires a.Valid() && c in a.used && a.Has(c) && v !in seen
    requires ValuesOk(a, seen, condemned) && FreshOk(a, h)
    ensures var b := ResetCell(a, c, v, now);
            b.Valid() && b.used == a.used && ValuesOk(b, seen + {v}, condemned) && FreshOk(b, SetNow(h, c, now))
  {
    UsedIsApart(a, c);
    HeldCellWrites(a, c, a.cells[c].(value := Some(v), resetTime := now));
    var b := ResetCell(a, c, v, now);
    forall d | b.Has(d)
      ensures FreshCell(b, SetNow(h, c, now), d)
    {
      assert FreshCell(a, h, d);
    }
  }

  lemma ResetKeepsInv(s: Sys, h: nat, v: Resource, now: Ticks)
    requires Inv(s) && s.clock <= now && v !in s.seen
    ensures Inv(ResetStep(s, h, v, now))
  {
    if Held(h) in s.owners {
      var c := s.owners[Held(h)].cell;
      assert s.pool.store.Has(c) by {
        UsedIsApart(s.pool.store, c);
      }
      ResetStore(s.pool.store, c, v, now, s.seen, s.condemned, s.past);
      forall r | InFlight(r) in s.owners
        ensures MarkedIsOld(ResetCell(s.pool.store, c, v, now), SetNow(s.past, c, now), s.owners[InFlight(r)].cell)
      {
        assert s.owners[InFlight(r)].cell != c;
        assert MarkedIsOld(s.pool.store, s.past, s.owners[InFlight(r)].cell);
      }
    }
  }

  /** After a return the handle is unusable. */
  lemma ReturnDrops(s: Sys, h: nat, how: Strategy, now: Ticks)
    requires s.pool.store.Valid() && OwnersOk(s.owners, s.pool.store.used)
    ensures var t := ReturnStep(s, h, how, now);
            Held(h) !in t.owners && t.clock == now && t.seen == s.seen && t.condemned == s.condemned
  {
  }

  lemma DestroyKeepsInv(s: Sys, h: nat, now: Ticks)
    requires Inv(s) && s.clock <= now
    ensures Inv(DestroyStep(s, h, now))
    ensures Strict(s) ==> Strict(DestroyStep(s, h, now))
    ensures Held(h) !in DestroyStep(s, h, now).owners
    ensures DestroyStep(s, h, now).clock == now
  {
    if Held(h) in s.owners {
      ReturnKeepsInv(s, h, s.owners[Held(h)].strategy, now);
      ReturnDrops(s, h, s.owners[Held(h)].strategy, now);
      if Strict(s) {
        ReturnKeepsStrict(s, h, s.owners[Held(h)].strategy, now);
      }
    }
  }

  lemma MoveKeepsInv(s: Sys, source: nat, target: nat, now: Ticks)
    requires Inv(s) && s.clock <= now
    ensures Inv(MoveStep(s, source, target, now))
    ensures Strict(s) ==> Strict(MoveStep(s, source, target, now))
  {
    DestroyKeepsInv(s, target, now);
    var t := DestroyStep(s, target, now);
    if Held(source) in t.owners {
      RenameKeepsInv(t, Held(source), Held(target));
    }
  }

  /** A wasted value is in no cell any more. */
  lemma WastedIsGone(s: Sys, h: nat, now: Ticks)
    requires s.pool.store.Valid() && OwnersOk(s.owners, s.pool.store.used)
    requires ValuesOk(s.pool.store, s.seen, s.condemned) && ValueOf(s, h).Some?
    ensures var t := ReturnStep(s, h, AutoWaste, now);
            forall c :: t.pool.store.Has(c) ==> t.pool.store.cells[c].value != ValueOf(s, h)
  {
    var c := s.owners[Held(h)].cell;
    GiveBackStore(s.pool, c, AutoWaste, now);
    var b := ReturnStep(s, h, AutoWaste, now).pool.store;
    forall d | b.Has(d)
      ensures b.cells[d].value != ValueOf(s, h)
    {
      assert d == c || SameCell(s.pool.store, b, d);
    }
  }

  lemma CondemnKeepsInv(t: Sys, v: Resource)
    requires Inv(t) && v in t.seen
    requires forall c :: t.pool.store.Has(c) ==> t.pool.store.cells[c].value != Some(v)
    ensures Inv(t.(condemned := t.condemned + {v}))
  {
  }

  /** Wasting the handle leaves its destructor nothing to do. */
  lemma DropConnectionForm(s: Sys, h: nat, bad: bool, idle: bool, now: Ticks)
    requires s.pool.store.Valid() && OwnersOk(s.owners, s.pool.store.used)
    requires ValueOf(s, h).Some? && (bad || !idle)
    ensures DropConnectionStep(s, h, bad, idle, now)
         == ReturnStep(s, h, AutoWaste, now).(condemned := s.condemned + {ValueOf(s, h).value})
  {
    ReturnDrops(s, h, AutoWaste, now);
  }

  lemma DropConnectionKeepsInv(s: Sys, h: nat, bad: bool, idle: bool, now: Ticks)
    requires Inv(s) && s.clock <= now
    ensures Inv(DropConnectionStep(s, h, bad, idle, now))
    ensures Strict(s) ==> Strict(DropConnectionStep(s, h, bad, idle, now))
  {
    var v := ValueOf(s, h);
    if v.Some? && (bad || !idle) {
      DropConnectionForm(s, h, bad, idle, now);
      WastedIsGone(s, h, now);
      ReturnKeepsInv(s, h, AutoWaste, now);
      ReturnDrops(s, h, AutoWaste, now);
      assert s.pool.store.Has(s.owners[Held(h)].cell) by {
        UsedIsApart(s.pool.store, s.owners[Held(h)].cell);
      }
      CondemnKeepsInv(ReturnStep(s, h, AutoWaste, now), v.value);
      if Strict(s) {
        ReturnKeepsStrict(s, h, AutoWaste, now);
      }
    } else {
      DestroyKeepsInv(s, h, now);
    }
  }

  // ---------------------------------------------------------------------------------------
  // Timers, invalidation, shutdown.

  lemma TimerKeepsInv(s: Sys, context: nat, now: Ticks)
    requires Inv(s) && s.clock <= now && context in s.pool.line.timers
    requires s.pool.line.timers[context].Some? && s.pool.line.timers[context].value <= now
    ensures Inv(TimerStep(s, context, now))
  {
    TimerQueue(s, context, now);
  }

  lemma TimerQueue(s: Sys, context: nat, now: Ticks)
    requires QueueInv(s) && s.clock <= now && context in s.pool.line.timers
    requires s.pool.line.timers[context].Some? && s.pool.line.timers[context].value <= now
    ensures QueueInv(TimerStep(s, context, now))
  {
  }

  /** The requests that time out move from the queue to the record. */
  lemma TimeoutsLogged(log: seq<Record>, waiters: seq<Waiter>, issued: nat, t: Ticks, posted: seq<Waiter>, now: Ticks)
    requires LogOk(log, waiters, issued) && TimesOut(waiters, t, posted)
    ensures var more := log + TimeoutEntries(posted, now);
            && LogOk(more, Pending(waiters, t), issued)
            && LogIds(more) == LogIds(log) + WaiterIds(posted)
            && forall all :: GrantIds(more, all) == GrantIds(log, all)
  {
    LogGrowsBy(log, TimeoutEntries(posted, now));
    assert LogIds(TimeoutEntries(posted, now)) == WaiterIds(posted);
    var rest := Pending(waiters, t);
    assert multiset(posted + rest) == multiset(waiters);
    SameIds(posted + rest, waiters);
    JoinIds(posted, rest);
  }

  lemma TimeoutLine(line: Line, issued: nat, t: Ticks)
    requires LineOk(line, issued)
    ensures LineOk(ExpireWaiters(line, t), issued)
    ensures ExpireWaiters(line, t).waiters == Pending(line.waiters, t)
  {
    PendingOrdered(line.waiters, t);
    var rest := Pending(line.waiters, t);
    RearmArms(line.(waiters := rest), multiset{});
    forall i | 0 <= i < |rest|
      ensures rest[i].request.id < issued
    {
      assert rest[i] in line.waiters;
    }
  }

  lemma TimeoutFifo(log: seq<Record>, more: seq<Record>, waiters: seq<Waiter>, issued: nat, t: Ticks, all: bool)
    requires FifoOk(log, waiters, issued, all) && GrantIds(more, all) == GrantIds(log, all)
    ensures FifoOk(more, Pending(waiters, t), issued, all)
  {
    var rest := Pending(waiters, t);
    forall r, i | r in GrantIds(more, all) && 0 <= i < |rest|
      ensures r < rest[i].request.id
    {
      assert rest[i] in waiters;
    }
  }

  lemma TimeoutQueue(s: Sys, at: Ticks, posted: seq<Waiter>, now: Ticks)
    requires QueueInv(s) && s.clock <= now && at in s.fired
    ensures QueueInv(TimeoutStep(s, at, posted, now))
  {
    var line := s.pool.line;
    TimeoutLine(line, s.issued, at);
    RearmArms(line.(waiters := Pending(line.waiters, at)), s.fired - multiset{at});
  }

  lemma TimeoutRecords(log: seq<Record>, waiters: seq<Waiter>, at: Ticks, posted: seq<Waiter>, now: Ticks)
    requires RecordsOk(log) && at <= now && TimesOut(waiters, at, posted)
    ensures RecordsOk(log + TimeoutEntries(posted, now))
  {
    var more := log + TimeoutEntries(posted, now);
    forall i | 0 <= i < |more|
      ensures RecordOk(more[i])
    {
      if i >= |log| {
        assert posted[i - |log|] in posted;
      }
    }
  }

  lemma TimeoutLog(s: Sys, at: Ticks, posted: seq<Waiter>, now: Ticks)
    requires LogInv(s) && at <= now && TimesOut(s.pool.line.waiters, at, posted)
    ensures LogInv(TimeoutStep(s, at, posted, now))
    ensures Strict(s) ==> Strict(TimeoutStep(s, at, posted, now))
  {
    var ws := s.pool.line.waiters;
    var log := s.log + TimeoutEntries(posted, now);
    TimeoutsLogged(s.log, ws, s.issued, at, posted, now);
    TimeoutFifo(s.log, log, ws, s.issued, at, false);
    TimeoutRecords(s.log, ws, at, posted, now);
    RearmArms(s.pool.line.(waiters := Pending(ws, at)), multiset{});
    if Strict(s) {
      TimeoutFifo(s.log, log, ws, s.issued, at, true);
    }
  }

  lemma TimeoutKeepsInv(s: Sys, at: Ticks, posted: seq<Waiter>, now: Ticks)
    requires Inv(s) && s.clock <= now && at in s.fired && TimesOut(s.pool.line.waiters, at, posted)
    ensures Inv(TimeoutStep(s, at, posted, now))
    ensures Strict(s) ==> Strict(TimeoutStep(s, at, posted, now))
  {
    TimeoutQueue(s, at, posted, now);
    TimeoutLog(s, at, posted, now);
    TimeoutsLogged(s.log, s.pool.line.waiters, s.issued, at, posted, now);
  }

  lemma InvalidateFresh(a: Store, h: History)
    requires a.Valid() && FreshOk(a, h)
    ensures FreshOk(InvalidateStore(a), h.(epoch := h.epoch + 1))
  {
    InvalidateKeepsValid(a);
    var b := InvalidateStore(a);
    PartitionMeaning(a);
    forall d | b.Has(d)
      ensures FreshCell(b, h.(epoch := h.epoch + 1), d)
    {
      assert FreshCell(a, h, d);
    }
  }

  lemma InvalidateFlight(owners: map<Owner, Owned>, a: Store, h: History)
    requires a.Valid() && FreshOk(a, h)
    ensures FlightFresh(owners, InvalidateStore(a), h.(epoch := h.epoch + 1))
  {
    InvalidateKeepsValid(a);
    forall r | InFlight(r) in owners
      ensures MarkedIsOld(InvalidateStore(a), h.(epoch := h.epoch + 1), owners[InFlight(r)].cell)
    {
      var d := owners[InFlight(r)].cell;
      assert a.Has(d) ==> FreshCell(a, h, d);
    }
  }

  lemma InvalidateValues(a: Store, seen: set<Resource>, condemned: set<Resource>)
    requires a.Valid() && ValuesOk(a, seen, condemned)
    ensures ValuesOk(InvalidateStore(a), seen, condemned)
  {
    InvalidateKeepsValid(a);
    var b := InvalidateStore(a);
    forall d | b.Has(d)
      ensures a.Has(d) && (b.cells[d].value == a.cells[d].value || b.cells[d].value == None)
    {
    }
  }

  lemma InvalidateKeepsInv(s: Sys)
    requires Inv(s)
    ensures Inv(InvalidateStep(s))
    ensures Strict(s) ==> Strict(InvalidateStep(s))
  {
    InvalidateCells(s);
  }

  lemma InvalidateCells(s: Sys)
    requires CellsInv(s)
    ensures CellsInv(InvalidateStep(s))
    ensures s.pool.store.available == [] && s.pool.store.wasted == [] ==>
              InvalidateStore(s.pool.store).available == [] && InvalidateStore(s.pool.store).wasted == []
  {
    InvalidateKeepsValid(s.pool.store);
    InvalidateFresh(s.pool.store, s.past);
    InvalidateFlight(s.owners, s.pool.store, s.past);
    InvalidateValues(s.pool.store, s.seen, s.condemned);
  }

  lemma RefusedIds(ws: seq<Waiter>)
    ensures LogIds(RefusalEntries(Refusals(ws))) == WaiterIds(ws)
  {
  }

  lemma DisabledLog(log: seq<Record>, ws: seq<Waiter>, issued: nat)
    requires LogOk(log, ws, issued) && RecordsOk(log)
    ensures var more := log + RefusalEntries(Refusals(ws));
            && LogOk(more, [], issued) && RecordsOk(more)
            && LogIds(more) == LogIds(log) + WaiterIds(ws)
            && forall all :: GrantIds(more, all) == GrantIds(log, all)
  {
    LogGrowsBy(log, RefusalEntries(Refusals(ws)));
    RefusedIds(ws);
    assert WaiterIds([]) == [];
    assert multiset(LogIds(log) + WaiterIds(ws)) == multiset(LogIds(log)) + multiset(WaiterIds(ws));
  }

  lemma DisableKeepsInv(s: Sys)
    requires Inv(s)
    ensures Inv(DisableStep(s))
    ensures Strict(s) ==> Strict(DisableStep(s))
  {
    DisabledLog(s.log, s.pool.line.waiters, s.issued);
  }

  // ---------------------------------------------------------------------------------------
  // Every step.

  lemma StepKeepsInv(s: Sys, e: Event)
    requires Inv(s) && Enabled(s, e)
    ensures Inv(Apply(s, e))
  {
    match e
    case GetEvent(strategy, executor, wait, leaseNow, pushNow) =>
      GetKeepsInv(s, strategy, executor, wait, leaseNow, pushNow);
    case AskEvent(strategy, executor, wait, now) => AskKeepsInv(s, strategy, executor, wait, now);
    case JoinEvent(ticket, now) => JoinKeepsInv(s, ticket, now);
    case DeliverEvent(request, handle) => RenameKeepsInv(s, InFlight(request), Held(handle));
    case ReturnEvent(h, how, now) => ReturnKeepsInv(s, h, how, now);
    case DestroyEvent(h, now) => DestroyKeepsInv(s, h, now);
    case MoveEvent(source, target, now) => MoveKeepsInv(s, source, target, now);
    case ResetEvent(h, value, now) => ResetKeepsInv(s, h, value, now);
    case DropConnectionEvent(h, bad, idle, now) => DropConnectionKeepsInv(s, h, bad, idle, now);
    case TimerEvent(context, now) => TimerKeepsInv(s, context, now);
    case TimeoutEvent(at, posted, now) => TimeoutKeepsInv(s, at, posted, now);
    case InvalidateEvent => InvalidateKeepsInv(s);
    case DisableEvent => DisableKeepsInv(s);
  }

  /** An event that does not take a `get` apart. */
  predicate WholeEvent(e: Event) {
    !e.AskEvent? && !e.JoinEvent?
  }

  lemma StepKeepsStrict(s: Sys, e: Event)
    requires Inv(s) && Strict(s) && Enabled(s, e) && WholeEvent(e)
    ensures Strict(Apply(s, e))
  {
    match e
    case GetEvent(strategy, executor, wait, leaseNow, pushNow) =>
      GetKeepsInv(s, strategy, executor, wait, leaseNow, pushNow);
    case ReturnEvent(h, how, now) => ReturnKeepsStrict(s, h, how, now);
    case DestroyEvent(h, now) => DestroyKeepsInv(s, h, now);
    case MoveEvent(source, target, now) => MoveKeepsInv(s, source, target, now);
    case DropConnectionEvent(h, bad, idle, now) => DropConnectionKeepsInv(s, h, bad, idle, now);
    case TimeoutEvent(at, posted, now) => TimeoutKeepsInv(s, at, posted, now);
    case InvalidateEvent => InvalidateKeepsInv(s);
    case DisableEvent => DisableKeepsInv(s);
    case DeliverEvent(_, _) =>
    case ResetEvent(_, _, _) =>
    case TimerEvent(_, _) =>
  }
}
