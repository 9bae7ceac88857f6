/**
 A cell that comes back while somebody waits is promised to the first in the queue under the pool's lock, but
 emptied and posted only after the lock was let go. Here the two halves are steps of their own, with anything in
 between, and are shown to come to the same as a return in one step.
 */
module PoolHandover {
  import opened Basics
  import opened TimeTraits
  import opened Storage
  import opened WaitQueues
  import opened Pools

  /** A cell between the halves of its return: promised to a request, and to be emptied first or not. */
  datatype Back = Back(request: Request, empty: bool)

  /** The pool as it is, the returns under way, and the completions posted so far. */
  datatype Fine = Fine(pool: PoolState, returning: map<CellId, Back>, posted: seq<Completion>)

  /** The same with every return in one step. */
  datatype Coarse = Coarse(pool: PoolState, posted: seq<Completion>)

  datatype Event =
    | AskEvent(request: Request, wait: Ticks, now: Ticks)
    | JoinEvent(request: Request, executor: Executor, wait: Ticks, now: Ticks)
    | ReturnEvent(cell: CellId, how: Strategy, now: Ticks)
    | FinishEvent(cell: CellId)
    | ResetEvent(cell: CellId, value: Resource, now: Ticks)
    | TimerEvent(context: nat)
    | TimeoutEvent(at: Ticks, expired: seq<Waiter>)
    | InvalidateEvent
    | DisableEvent

  // ---------------------------------------------------------------------------------------
  // The halves of a return.

  /** Under the lock: idle again, or promised to the first in the queue. */
  function Take(p: PoolState, c: CellId, how: Strategy, now: Ticks): (PoolState, Option<Back>)
    requires c in p.store.used && p.store.Has(c)
  {
    if p.line.waiters == [] then
      (p.(store := if how == AutoRecycle then RecycleCell(p.store, c, now) else WasteCell(p.store, c)), None)
    else
      var empty := how == AutoWaste || !IsValid(p.store, c, now);
      (p.(line := PopWaiter(p.line)), Some(Back(p.line.waiters[0].request, empty)))
  }

  /** Without the lock: emptied if need be. The completion is posted next. */
  function Finish(s: Store, c: CellId, b: Back): Store
    requires s.Has(c)
  {
    if b.empty then EmptyCell(s, c) else s
  }

  /** With nothing between them, the halves are the whole return. */
  lemma HalvesMakeReturn(p: PoolState, c: CellId, how: Strategy, now: Ticks)
    requires c in p.store.used && p.store.Has(c)
    ensures var (q, back) := Take(p, c, how, now);
            GiveBack(p, c, how, now) ==
            if back.None? then (q, None)
            else (q.(store := Finish(q.store, c, back.value)), Some(Granted(back.value.request, c)))
  {
  }

  // ---------------------------------------------------------------------------------------
  // Runs at both grains.

  /** A return, and a reset, is by the handle that holds the cell; from then on the return itself holds it. */
  ghost predicate Enabled(f: Fine, e: Event) {
    match e
    case ReturnEvent(c, _, _) => c in f.pool.store.used && c !in f.returning
    case FinishEvent(c) => c in f.returning
    case ResetEvent(c, _, _) => c in f.pool.store.used && c !in f.returning
    case TimeoutEvent(at, expired) => TimesOut(f.pool.line.waiters, at, expired)
    case _ => true
  }

  /** The storage is consistent, and cells on their way back are still in use. */
  ghost predicate Inv(f: Fine) {
    f.pool.store.Valid() && forall c :: c in f.returning ==> c in f.pool.store.used
  }

  function Posting(answer: Option<Completion>): seq<Completion> {
    if answer.Some? then [answer.value] else []
  }

  function TimeoutsOf(ws: seq<Waiter>): seq<Completion> {
    seq(|ws|, i requires 0 <= i < |ws| => Failed(ws[i].request, GetResourceTimeout))
  }

  /** What an event that is no part of a return does to the pool, and what it posts. */
  ghost function Step(p: PoolState, e: Event): (PoolState, seq<Completion>)
    requires p.store.Valid() && !e.ReturnEvent? && !e.FinishEvent?
    requires e.ResetEvent? ==> p.store.Has(e.cell)
  {
    match e
    case AskEvent(r, wait, now) => var (q, answer) := Ask(p, r, wait, now); (q, Posting(answer))
    case JoinEvent(r, executor, wait, now) =>
      var (q, answer) := Join(p, r, executor, wait, now); (q, Posting(answer))
    case ResetEvent(c, v, now) => (p.(store := ResetCell(p.store, c, v, now)), [])
    case TimerEvent(context) => (p.(line := WaitCompletes(p.line, context)), [])
    case TimeoutEvent(at, expired) => (p.(line := ExpireWaiters(p.line, at)), TimeoutsOf(expired))
    case InvalidateEvent => (p.(store := InvalidateStore(p.store)), [])
    case DisableEvent => Disable(p)
  }

  lemma InUseExists(s: Store, e: Event)
    requires s.Valid()
    ensures (e.ReturnEvent? || e.FinishEvent? || e.ResetEvent?) && e.cell in s.used ==> s.Has(e.cell)
  {
    if (e.ReturnEvent? || e.FinishEvent? || e.ResetEvent?) && e.cell in s.used {
      UsedExists(s, e.cell);
    }
  }

  ghost function FineApply(f: Fine, e: Event): Fine
    requires Inv(f) && Enabled(f, e)
  {
    InUseExists(f.pool.store, e);
    if e.ReturnEvent? then
      var (p, back) := Take(f.pool, e.cell, e.how, e.now);
      if back.None? then f.(pool := p) else f.(pool := p, returning := f.returning[e.cell := back.value])
    else if e.FinishEvent? then
      var b := f.returning[e.cell];
      var p := f.pool.(store := Finish(f.pool.store, e.cell, b));
      Fine(p, f.returning - {e.cell}, f.posted + [Granted(b.request, e.cell)])
    else
      var (p, posted) := Step(f.pool, e);
      f.(pool := p, posted := f.posted + posted)
  }

  ghost function CoarseApply(k: Coarse, e: Event): Coarse
    requires k.pool.store.Valid()
    requires e.ReturnEvent? || e.ResetEvent? ==> e.cell in k.pool.store.used
  {
    InUseExists(k.pool.store, e);
    if e.ReturnEvent? then
      var (p, answer) := GiveBack(k.pool, e.cell, e.how, e.now);
      Coarse(p, k.posted + Posting(answer))
    else if e.FinishEvent? then k
    else
      var (p, posted) := Step(k.pool, e);
      Coarse(p, k.posted + posted)
  }

  // ---------------------------------------------------------------------------------------
  // What is still to be emptied makes no difference to anything else.

  /** The cells that the returns under way will empty. */
  function ToEmpty(returning: map<CellId, Back>): set<CellId> {
    set c | c in returning && returning[c].empty
  }

  function Blank(cells: map<CellId, Cell>, gone: set<CellId>): (r: map<CellId, Cell>)
    ensures r.Keys == cells.Keys
  {
    map c | c in cells :: if c in gone then cells[c].(value := None) else cells[c]
  }

  /** `s` as it will be when the cells in `gone` are emptied. */
  function Settle(s: Store, gone: set<CellId>): Store {
    s.(cells := Blank(s.cells, gone))
  }

  lemma SettleKnown(s: Store, gone: set<CellId>)
    requires s.Listed()
    ensures Settle(s, gone).Listed()
  {
  }

  lemma SettleValid(s: Store, gone: set<CellId>)
    requires s.Valid()
    ensures Settle(s, gone).Valid()
  {
    var t := Settle(s, gone);
    SettleKnown(s, gone);
    forall c | t.Has(c)
      ensures t.CellOk(c)
    {
      assert s.CellOk(c);
    }
  }

  lemma RetiredSettles(s: Store, gone: set<CellId>, k: nat)
    requires k <= |s.available|
    ensures Retired(Settle(s, gone), k) == Settle(Retired(s, k), gone)
  {
    assert Cleared(Blank(s.cells, gone), s.available[..k]) == Blank(Cleared(s.cells, s.available[..k]), gone);
  }

  lemma TakeWastedSettles(s: Store, gone: set<CellId>)
    requires s.wasted != [] && s.Has(s.wasted[0])
    ensures TakeWasted(Settle(s, gone)) == Settle(TakeWasted(s), gone)
  {
    assert TakeWasted(Settle(s, gone)).cells == Settle(TakeWasted(s), gone).cells;
  }

  lemma FirstLiveSettles(s: Store, gone: set<CellId>, now: Ticks)
    requires Known(s.cells, s.available)
    ensures Known(Blank(s.cells, gone), s.available)
    ensures FirstLive(Blank(s.cells, gone), s.available, now) == FirstLive(s.cells, s.available, now)
  {
    SameDrops(Blank(s.cells, gone), s.cells, s.available, now);
  }

  /** The second part of a lease, once the expired cells are retired. */
  function TakeFirst(d: Store): (Store, Option<CellId>)
    requires d.wasted != [] ==> d.Has(d.wasted[0])
  {
    if d.available != [] then (TakeAvailable(d), Some(d.available[0]))
    else if d.wasted != [] then (TakeWasted(d), Some(d.wasted[0]))
    else (d, None)
  }

  lemma TakeFirstSettles(d: Store, gone: set<CellId>)
    requires d.wasted != [] ==> d.Has(d.wasted[0])
    ensures TakeFirst(Settle(d, gone)) == (Settle(TakeFirst(d).0, gone), TakeFirst(d).1)
  {
    if d.available == [] && d.wasted != [] {
      TakeWastedSettles(d, gone);
    }
  }

  lemma LeaseForm(s: Store, now: Ticks)
    requires Known(s.cells, s.available) && Known(s.cells, s.wasted)
    ensures var d := Retired(s, FirstLive(s.cells, s.available, now));
            (d.wasted != [] ==> d.Has(d.wasted[0])) && Lease(s, now) == TakeFirst(d)
  {
  }

  lemma LeaseSettles(s: Store, gone: set<CellId>, now: Ticks)
    requires Known(s.cells, s.available) && Known(s.cells, s.wasted)
    ensures Known(Blank(s.cells, gone), s.available) && Known(Blank(s.cells, gone), s.wasted)
    ensures Lease(Settle(s, gone), now) == (Settle(Lease(s, now).0, gone), Lease(s, now).1)
  {
    LeaseForm(s, now);
    LeaseForm(Settle(s, gone), now);
    FirstLiveSettles(s, gone, now);
    var k := FirstLive(s.cells, s.available, now);
    RetiredSettles(s, gone, k);
    TakeFirstSettles(Retired(s, k), gone);
  }

  lemma AskSettles(p: PoolState, gone: set<CellId>, r: Request, wait: Ticks, now: Ticks)
    requires Known(p.store.cells, p.store.available) && Known(p.store.cells, p.store.wasted)
    ensures Known(Blank(p.store.cells, gone), p.store.available) && Known(Blank(p.store.cells, gone), p.store.wasted)
    ensures var (q, answer) := Ask(p, r, wait, now);
            Ask(p.(store := Settle(p.store, gone)), r, wait, now) == (q.(store := Settle(q.store, gone)), answer)
  {
    LeaseSettles(p.store, gone, now);
  }

  lemma RecycleSettles(s: Store, gone: set<CellId>, c: CellId, now: Ticks)
    requires c in s.used && s.Has(c) && c !in gone
    ensures RecycleCell(Settle(s, gone), c, now) == Settle(RecycleCell(s, c, now), gone)
    ensures WasteCell(Settle(s, gone), c) == Settle(WasteCell(s, c), gone)
  {
    assert RecycleCell(Settle(s, gone), c, now).cells == Settle(RecycleCell(s, c, now), gone).cells;
    assert WasteCell(Settle(s, gone), c).cells == Settle(WasteCell(s, c), gone).cells;
  }

  lemma ResetSettles(s: Store, gone: set<CellId>, c: CellId, v: Resource, now: Ticks)
    requires s.Has(c) && c !in gone
    ensures ResetCell(Settle(s, gone), c, v, now) == Settle(ResetCell(s, c, v, now), gone)
  {
    assert ResetCell(Settle(s, gone), c, v, now).cells == Settle(ResetCell(s, c, v, now), gone).cells;
  }

  lemma InvalidateSettles(s: Store, gone: set<CellId>)
    ensures InvalidateStore(Settle(s, gone)) == Settle(InvalidateStore(s), gone)
  {
    assert InvalidateStore(Settle(s, gone)).cells == Settle(InvalidateStore(s), gone).cells;
  }

  /** A cell emptied now, and one emptied when things settle. */
  lemma EmptySettles(s: Store, gone: set<CellId>, c: CellId)
    requires s.Has(c)
    ensures Settle(EmptyCell(s, c), gone) == Settle(s, gone + {c}) == EmptyCell(Settle(s, gone), c)
    ensures Settle(EmptyCell(s, c), gone - {c}) == Settle(s, gone + {c})
  {
    assert Settle(EmptyCell(s, c), gone).cells == Settle(s, gone + {c}).cells == EmptyCell(Settle(s, gone), c).cells;
    assert Settle(EmptyCell(s, c), gone - {c}).cells == Settle(s, gone + {c}).cells;
  }

  // ---------------------------------------------------------------------------------------
  // Refinement.

  /** The completions the returns under way will post; no two are alike, as no two have the same cell. */
  function Due(returning: map<CellId, Back>): set<Completion> {
    set c | c in returning :: Granted(returning[c].request, c)
  }

  /** The coarse state is the fine one with every return under way finished. */
  ghost predicate Matches(f: Fine, k: Coarse) {
    && k.pool == f.pool.(store := Settle(f.pool.store, ToEmpty(f.returning)))
    && multiset(k.posted) == multiset(f.posted) + multiset(Due(f.returning))
  }

  lemma UsedLeaves(used: seq<CellId>, c: CellId, d: CellId)
    requires d in used && d != c
    ensures d in Without(used, c)
  {
    assert d in multiset(used) - multiset{c};
  }

  lemma StepSettles(p: PoolState, gone: set<CellId>, e: Event)
    requires p.store.Valid() && !e.ReturnEvent? && !e.FinishEvent?
    requires e.ResetEvent? ==> p.store.Has(e.cell) && e.cell !in gone
    ensures Settle(p.store, gone).Valid()
    ensures var (q, posted) := Step(p, e);
            Step(p.(store := Settle(p.store, gone)), e) == (q.(store := Settle(q.store, gone)), posted)
  {
    SettleValid(p.store, gone);
    if e.AskEvent? {
      AskSettles(p, gone, e.request, e.wait, e.now);
    } else if e.ResetEvent? {
      ResetSettles(p.store, gone, e.cell, e.value, e.now);
    } else if e.InvalidateEvent? {
      InvalidateSettles(p.store, gone);
    }
  }

  lemma StepKeepsInv(f: Fine, e: Event)
    requires Inv(f) && Enabled(f, e) && !e.ReturnEvent? && !e.FinishEvent?
    ensures Inv(FineApply(f, e))
  {
    var s := f.pool.store;
    if e.AskEvent? {
      LeaseDelivers(s, e.now);
      LeaseFailsOnlyWhenAllUsed(s, e.now);
    } else if e.ResetEvent? {
      UsedIsApart(s, e.cell);
      HeldCellWrites(s, e.cell, s.cells[e.cell].(value := Some(e.value), resetTime := e.now));
    } else if e.InvalidateEvent? {
      InvalidateKeepsValid(s);
    }
  }

  lemma OtherRefines(f: Fine, k: Coarse, e: Event)
    requires Inv(f) && Matches(f, k) && Enabled(f, e) && !e.ReturnEvent? && !e.FinishEvent?
    ensures k.pool.store.Valid() && (e.ResetEvent? ==> e.cell in k.pool.store.used)
    ensures Matches(FineApply(f, e), CoarseApply(k, e))
  {
    InUseExists(f.pool.store, e);
    StepSettles(f.pool, ToEmpty(f.returning), e);
    var posted := Step(f.pool, e).1;
    assert multiset(k.posted + posted) == multiset(k.posted) + multiset(posted);
    assert multiset(f.posted + posted) == multiset(f.posted) + multiset(posted);
  }

  /** The first half of a return: idle again at either grain, or promised at one and granted at the other. */
  lemma ReturnRefines(f: Fine, k: Coarse, c: CellId, how: Strategy, now: Ticks)
    requires Inv(f) && Matches(f, k) && Enabled(f, ReturnEvent(c, how, now))
    ensures Inv(FineApply(f, ReturnEvent(c, how, now)))
    ensures k.pool.store.Valid() && c in k.pool.store.used
    ensures Matches(FineApply(f, ReturnEvent(c, how, now)), CoarseApply(k, ReturnEvent(c, how, now)))
  {
    SettleValid(f.pool.store, ToEmpty(f.returning));
    UsedExists(f.pool.store, c);
    if f.pool.line.waiters == [] {
      IdleAgain(f, k, c, how, now);
    } else {
      Promised(f, k, c, how, now);
    }
  }

  lemma IdleAgain(f: Fine, k: Coarse, c: CellId, how: Strategy, now: Ticks)
    requires Inv(f) && Matches(f, k) && Enabled(f, ReturnEvent(c, how, now)) && f.pool.line.waiters == []
    requires k.pool.store.Valid() && c in k.pool.store.used
    ensures Inv(FineApply(f, ReturnEvent(c, how, now)))
    ensures Matches(FineApply(f, ReturnEvent(c, how, now)), CoarseApply(k, ReturnEvent(c, how, now)))
  {
    var s := f.pool.store;
    UsedExists(s, c);
    RecycleKeepsValid(s, c, now);
    WasteKeepsValid(s, c);
    RecycleSettles(s, ToEmpty(f.returning), c, now);
    forall d | d in f.returning
      ensures d in Without(s.used, c)
    {
      UsedLeaves(s.used, c, d);
    }
    assert k.posted + [] == k.posted;
  }

  lemma Promised(f: Fine, k: Coarse, c: CellId, how: Strategy, now: Ticks)
    requires Inv(f) && Matches(f, k) && Enabled(f, ReturnEvent(c, how, now)) && f.pool.line.waiters != []
    requires k.pool.store.Valid() && c in k.pool.store.used
    ensures Inv(FineApply(f, ReturnEvent(c, how, now)))
    ensures Matches(FineApply(f, ReturnEvent(c, how, now)), CoarseApply(k, ReturnEvent(c, how, now)))
  {
    UsedExists(f.pool.store, c);
    var b := Take(f.pool, c, how, now).1.value;
    PromiseSettles(f.pool.store, f.returning, c, b);
    PromiseDue(f.returning, c, b);
    assert multiset(k.posted + [Granted(b.request, c)]) == multiset(k.posted) + multiset{Granted(b.request, c)};
  }

  lemma PromiseSettles(s: Store, returning: map<CellId, Back>, c: CellId, b: Back)
    requires s.Has(c) && c !in returning
    ensures Settle(s, ToEmpty(returning[c := b])) == Finish(Settle(s, ToEmpty(returning)), c, b)
  {
    assert ToEmpty(returning[c := b]) == ToEmpty(returning) + if b.empty then {c} else {};
    if b.empty {
      EmptySettles(s, ToEmpty(returning), c);
    }
  }

  lemma PromiseDue(returning: map<CellId, Back>, c: CellId, b: Back)
    requires c !in returning
    ensures multiset(Due(returning[c := b])) == multiset(Due(returning)) + multiset{Granted(b.request, c)}
  {
    var more := returning[c := b];
    forall x | x in Due(more)
      ensures x in Due(returning) + {Granted(b.request, c)}
    {
      var d :| d in more && x == Granted(more[d].request, d);
      assert d != c ==> d in returning;
    }
    forall x | x in Due(returning)
      ensures x in Due(more)
    {
      var d :| d in returning && x == Granted(returning[d].request, d);
      assert d in more && more[d] == returning[d];
    }
    assert c in more;
    assert Due(more) == Due(returning) + {Granted(b.request, c)};
    assert Granted(b.request, c) !in Due(returning);
  }

  /** The second half changes nothing at the coarse grain, where it has happened already. */
  lemma FinishRefines(f: Fine, k: Coarse, c: CellId)
    requires Inv(f) && Matches(f, k) && c in f.returning
    ensures Inv(FineApply(f, FinishEvent(c))) && Matches(FineApply(f, FinishEvent(c)), k)
  {
    var s, b, rest := f.pool.store, f.returning[c], f.returning - {c};
    UsedIsApart(s, c);
    HeldCellWrites(s, c, s.cells[c].(value := None));
    assert f.returning == rest[c := b];
    PromiseDue(rest, c, b);
    FinishSettles(s, rest, c, b);
    assert multiset(f.posted + [Granted(b.request, c)]) == multiset(f.posted) + multiset{Granted(b.request, c)};
  }

  lemma FinishSettles(s: Store, rest: map<CellId, Back>, c: CellId, b: Back)
    requires s.Has(c) && c !in rest
    ensures Settle(Finish(s, c, b), ToEmpty(rest)) == Settle(s, ToEmpty(rest[c := b]))
  {
    PromiseSettles(s, rest, c, b);
    if b.empty {
      EmptySettles(s, ToEmpty(rest), c);
    }
  }

  lemma StepRefines(f: Fine, k: Coarse, e: Event)
    requires Inv(f) && Matches(f, k) && Enabled(f, e)
    ensures Inv(FineApply(f, e))
    ensures k.pool.store.Valid() && (e.ReturnEvent? || e.ResetEvent? ==> e.cell in k.pool.store.used)
    ensures Matches(FineApply(f, e), CoarseApply(k, e))
  {
    SettleValid(f.pool.store, ToEmpty(f.returning));
    if e.ReturnEvent? {
      ReturnRefines(f, k, e.cell, e.how, e.now);
    } else if e.FinishEvent? {
      FinishRefines(f, k, e.cell);
    } else {
      StepKeepsInv(f, e);
      OtherRefines(f, k, e);
    }
  }

  // ---------------------------------------------------------------------------------------
  // Whole runs.

  ghost predicate Allowed(f: Fine, es: seq<Event>)
    requires Inv(f)
    decreases |es|
  {
    es == [] || (Enabled(f, es[0]) && (FineKeepsInv(f, es[0]); Allowed(FineApply(f, es[0]), es[1..])))
  }

  /** The coarse state in which every return under way is finished, in some order. */
  ghost function Finished(f: Fine): (k: Coarse)
    ensures Matches(f, k)
  {
    var k := Coarse(f.pool.(store := Settle(f.pool.store, ToEmpty(f.returning))), f.posted + SeqOf(Due(f.returning)));
    assert multiset(k.posted) == multiset(f.posted) + multiset(SeqOf(Due(f.returning)));
    k
  }

  lemma FineKeepsInv(f: Fine, e: Event)
    requires Inv(f) && Enabled(f, e)
    ensures Inv(FineApply(f, e))
  {
    StepRefines(f, Finished(f), e);
  }

  ghost function FineRun(f: Fine, es: seq<Event>): (g: Fine)
    requires Inv(f) && Allowed(f, es)
    ensures Inv(g)
    decreases |es|
  {
    if es == [] then f else (FineKeepsInv(f, es[0]); FineRun(FineApply(f, es[0]), es[1..]))
  }

  ghost function SeqOf(xs: set<Completion>): (r: seq<Completion>)
    ensures multiset(r) == multiset(xs)
    decreases |xs|
  {
    if xs == {} then []
    else
      var x :| x in xs;
      assert xs == xs - {x} + {x};
      [x] + SeqOf(xs - {x})
  }

  /** The coarse run of the same events, in which the second halves do nothing. */
  ghost predicate CoarseAllowed(k: Coarse, es: seq<Event>)
    decreases |es|
  {
    es == [] ||
    (&& k.pool.store.Valid() && (es[0].ReturnEvent? || es[0].ResetEvent? ==> es[0].cell in k.pool.store.used)
     && CoarseAllowed(CoarseApply(k, es[0]), es[1..]))
  }

  ghost function CoarseRun(k: Coarse, es: seq<Event>): Coarse
    requires CoarseAllowed(k, es)
    decreases |es|
  {
    if es == [] then k else CoarseRun(CoarseApply(k, es[0]), es[1..])
  }

  /** Every run with returns in halves is a run with whole returns, but for what the returns under way still owe. */
  lemma {:induction false} FineRefinesCoarse(f: Fine, k: Coarse, es: seq<Event>)
    requires Inv(f) && Matches(f, k) && Allowed(f, es)
    ensures CoarseAllowed(k, es) && Matches(FineRun(f, es), CoarseRun(k, es))
    decreases |es|
  {
    if es == [] {
    } else {
      StepRefines(f, k, es[0]);
      FineRefinesCoarse(FineApply(f, es[0]), CoarseApply(k, es[0]), es[1..]);
    }
  }

  /**
   So cells and completions are conserved at this grain too: the same lists in the same order, the same queue, the
   same cells but for values about to be destroyed, and completions posted or due that are those of whole returns.
   */
  lemma HandoverConserves(p: PoolState, es: seq<Event>)
    requires p.store.Valid() && Allowed(Fine(p, map[], []), es)
    ensures CoarseAllowed(Coarse(p, []), es)
    ensures var f, k := FineRun(Fine(p, map[], []), es), CoarseRun(Coarse(p, []), es);
            && f.pool.store.available == k.pool.store.available && f.pool.store.used == k.pool.store.used
            && f.pool.store.wasted == k.pool.store.wasted && f.pool.line == k.pool.line
            && f.pool.disabled == k.pool.disabled
            && (forall c :: c in f.returning ==> c in f.pool.store.used)
            && |k.posted| == |f.posted| + |f.returning|
            && (f.returning == map[] ==> f.pool == k.pool && multiset(f.posted) == multiset(k.posted))
  {
    var f0, k0 := Fine(p, map[], []), Coarse(p, []);
    assert Blank(p.store.cells, {}) == p.store.cells;
    assert ToEmpty(f0.returning) == {} && Due(f0.returning) == {};
    assert Matches(f0, k0);
    FineRefinesCoarse(f0, k0, es);
    MatchMeans(FineRun(f0, es), CoarseRun(k0, es));
  }

  lemma MatchMeans(f: Fine, k: Coarse)
    requires Matches(f, k)
    ensures |k.posted| == |f.posted| + |f.returning|
    ensures f.returning == map[] ==> f.pool == k.pool && multiset(f.posted) == multiset(k.posted)
  {
    DueSize(f.returning);
    assert |multiset(k.posted)| == |multiset(f.posted)| + |multiset(Due(f.returning))|;
    if f.returning == map[] {
      assert Blank(f.pool.store.cells, {}) == f.pool.store.cells;
      assert ToEmpty(f.returning) == {} && Due(f.returning) == {};
    }
  }

  lemma {:induction false} DueSize(returning: map<CellId, Back>)
    ensures |multiset(Due(returning))| == |returning|
    decreases |returning|
  {
    if returning == map[] {
      assert Due(returning) == {};
    } else {
      var c :| c in returning;
      var rest := returning - {c};
      assert returning == rest[c := returning[c]];
      DueSize(rest);
      PromiseDue(rest, c, returning[c]);
    }
  }

  // ---------------------------------------------------------------------------------------
  // A promised cell in the gap.

  /** Cell `c` is as it was, but for a mark. */
  predicate SameButMarked(a: Store, b: Store, c: CellId, marked: bool) {
    a.Has(c) && b.Has(c) && b.cells[c] == a.cells[c].(wasteOnRecycle := a.cells[c].wasteOnRecycle || marked)
  }

  lemma OthersLeaveIt(f: Fine, c: CellId, e: Event)
    requires Inv(f) && Enabled(f, e) && c in f.returning && e != FinishEvent(c)
    ensures var g := FineApply(f, e);
            && c in g.returning && g.returning[c] == f.returning[c]
            && SameButMarked(f.pool.store, g.pool.store, c, e.InvalidateEvent?)
  {
    var s := f.pool.store;
    UsedIsApart(s, c);
    InUseExists(s, e);
    if e.AskEvent? {
      LeaseDelivers(s, e.now);
      LeaseTouches(s, e.now, c);
    }
  }

  lemma {:induction false} RunLeavesIt(f: Fine, c: CellId, es: seq<Event>)
    requires Inv(f) && Allowed(f, es) && c in f.returning && FinishEvent(c) !in es
    ensures var g := FineRun(f, es);
            && c in g.returning && g.returning[c] == f.returning[c]
            && SameButMarked(f.pool.store, g.pool.store, c, InvalidateEvent in es)
    decreases |es|
  {
    if es == [] {
      UsedIsApart(f.pool.store, c);
    } else {
      FineKeepsInv(f, es[0]);
      OthersLeaveIt(f, c, es[0]);
      HeadAndTail(es);
      RunLeavesIt(FineApply(f, es[0]), c, es[1..]);
    }
  }

  /**
   A cell promised with its value still holds that value when it is posted, whatever happened in the gap, and it is
   marked for disposal by then if and only if the pool was invalidated in the gap. The validity test was before.
   */
  lemma PromisedIsStaleExactlyWhen(f: Fine, c: CellId, how: Strategy, now: Ticks, es: seq<Event>)
    requires Inv(f) && Enabled(f, ReturnEvent(c, how, now))
    requires var t := FineApply(f, ReturnEvent(c, how, now));
             Inv(t) && Allowed(t, es) && c in t.returning && !t.returning[c].empty
    requires FinishEvent(c) !in es
    ensures var g := FineRun(FineApply(f, ReturnEvent(c, how, now)), es);
            && f.pool.store.Has(c) && c in g.returning
            && var cell := FineApply(g, FinishEvent(c)).pool.store.cells[c];
               && cell.value == f.pool.store.cells[c].value
               && (cell.wasteOnRecycle <==> InvalidateEvent in es)
  {
    UsedIsApart(f.pool.store, c);
    RunLeavesIt(FineApply(f, ReturnEvent(c, how, now)), c, es);
  }

  /** A pool whose only cell, filled with 7, is in use, and for which somebody waits. */
  function Contended(w: Waiter): PoolState {
    PoolState(Store(10, 10, map[0 := Cell(Some(7), 0, 0, false)], [], [0], []), Line(1, [w], map[]), false)
  }

  /** It does happen: the cell is promised, the pool invalidated, and the old value posted all the same. */
  lemma StaleHandoverHappens(w: Waiter)
    ensures var f := Fine(Contended(w), map[], []);
            var e := ReturnEvent(0, AutoRecycle, 0);
            && Inv(f) && Enabled(f, e)
            && var t := FineApply(f, e);
               && Inv(t) && Allowed(t, [InvalidateEvent])
               && var g := FineRun(t, [InvalidateEvent]);
                  && 0 in g.returning
                  && var cell := FineApply(g, FinishEvent(0)).pool.store.cells[0];
                     cell.value == Some(7) && cell.wasteOnRecycle
  {
    var p := Contended(w);
    var f, e := Fine(p, map[], []), ReturnEvent(0, AutoRecycle, 0);
    assert multiset(p.store.cells.Keys) == multiset{0};
    assert Inv(f);
    FineKeepsInv(f, e);
    var t := FineApply(f, e);
    assert t.returning == map[0 := Back(w.request, false)];
    FineKeepsInv(t, InvalidateEvent);
    assert [InvalidateEvent][1..] == [];
    assert Allowed(t, [InvalidateEvent]);
    PromisedIsStaleExactlyWhen(f, 0, AutoRecycle, 0, [InvalidateEvent]);
  }
}
