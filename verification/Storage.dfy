/**
 The cell storage of the resource pool: a fixed set of cells spread over three lists.

 `Store` is the value a `CellStorage` object holds. The functions on it say in closed form
 where every cell ends up; the class works step by step, as the original does, and each of
 its methods is proved to produce the closed form.
 */
module Storage {
  import opened Basics
  import opened TimeTraits

  /** Identity of a pooled value (a connection). */
  type Resource = nat
  type CellId = nat

  datatype Cell = Cell(value: Option<Resource>, dropTime: Ticks, resetTime: Ticks, wasteOnRecycle: bool)

  datatype Store = Store(
    idleTimeout: Ticks,
    lifespan: Ticks,
    cells: map<CellId, Cell>,
    available: seq<CellId>,
    used: seq<CellId>,
    wasted: seq<CellId>)
  {
    /** Every cell is on exactly one list, once. */
    ghost predicate Balanced() {
      multiset(available) + multiset(used) + multiset(wasted) == multiset(cells.Keys)
    }

    /** A wasted cell is empty; an available one is not marked and never outlives its lifespan. */
    ghost predicate CellOk(c: CellId)
      requires Has(c)
    {
      && (c in wasted ==> cells[c].value == None)
      && (c in available ==> !cells[c].wasteOnRecycle && cells[c].dropTime <= LifeEnd(c))
    }

    ghost predicate Listed() {
      Known(cells, available) && Known(cells, used) && Known(cells, wasted)
    }

    ghost predicate Valid() {
      && Balanced()
      && Listed()
      && (forall c :: Has(c) ==> CellOk(c))
    }

    predicate Has(c: CellId) { c in cells }

    function LifeEnd(c: CellId): Ticks
      requires Has(c)
    {
      Add(cells[c].resetTime, lifespan)
    }

    function Filled(c: CellId): bool
      requires Has(c)
    {
      cells[c].value.Some?
    }
  }

  /** Every listed cell exists. */
  ghost predicate Known(cells: map<CellId, Cell>, line: seq<CellId>) {
    forall i :: 0 <= i < |line| ==> line[i] in cells
  }

  /** `cells` with the values of the cells in `gone` destroyed. */
  function Cleared(cells: map<CellId, Cell>, gone: seq<CellId>): (r: map<CellId, Cell>)
    ensures r.Keys == cells.Keys
  {
    map c | c in cells :: if c in gone then cells[c].(value := None) else cells[c]
  }

  /** Position of the first cell whose drop time is still ahead; `|line|` when there is none. */
  function FirstLive(cells: map<CellId, Cell>, line: seq<CellId>, now: Ticks): (k: nat)
    requires Known(cells, line)
    ensures k <= |line|
    ensures forall i :: 0 <= i < k ==> cells[line[i]].dropTime <= now
    ensures k < |line| ==> cells[line[k]].dropTime > now
  {
    if line == [] then 0
    else if cells[line[0]].dropTime > now then 0
    else 1 + FirstLive(cells, line[1..], now)
  }

  /** The first `k` available cells have expired: they lose their values and join the wasted ones. */
  function Retired(s: Store, k: nat): Store
    requires k <= |s.available|
  {
    s.(cells := Cleared(s.cells, s.available[..k]),
       available := s.available[k..], wasted := s.wasted + s.available[..k])
  }

  function TakeAvailable(s: Store): Store
    requires s.available != []
  {
    s.(available := s.available[1..], used := s.used + [s.available[0]])
  }

  function TakeWasted(s: Store): Store
    requires s.wasted != [] && s.Has(s.wasted[0])
  {
    var c := s.wasted[0];
    s.(cells := s.cells[c := s.cells[c].(wasteOnRecycle := false)], used := s.used + [c], wasted := s.wasted[1..])
  }

  /** The store and the leased cell after `lease`: the first live available cell, else the first wasted one. */
  function Lease(s: Store, now: Ticks): (Store, Option<CellId>)
    requires Known(s.cells, s.available) && Known(s.cells, s.wasted)
  {
    var d := Retired(s, FirstLive(s.cells, s.available, now));
    if d.available != [] then (TakeAvailable(d), Some(d.available[0]))
    else if d.wasted != [] then (TakeWasted(d), Some(d.wasted[0]))
    else (d, None)
  }

  function WasteCell(s: Store, c: CellId): Store
    requires c in s.used && s.Has(c)
  {
    s.(cells := s.cells[c := s.cells[c].(value := None)], used := Without(s.used, c), wasted := s.wasted + [c])
  }

  /** May the value in a returned cell be used again? */
  predicate IsValid(s: Store, c: CellId, now: Ticks)
    requires s.Has(c)
  {
    !s.cells[c].wasteOnRecycle && s.LifeEnd(c) > now
  }

  function RecycleCell(s: Store, c: CellId, now: Ticks): Store
    requires c in s.used && s.Has(c)
  {
    if !IsValid(s, c, now) then WasteCell(s, c)
    else
      var drop := Earlier(Add(now, s.idleTimeout), s.LifeEnd(c));
      s.(cells := s.cells[c := s.cells[c].(dropTime := drop)],
         used := Without(s.used, c), available := s.available + [c])
  }

  /** `cells` with those in `line` marked for disposal on return. */
  function Marked(cells: map<CellId, Cell>, line: seq<CellId>): (r: map<CellId, Cell>)
    ensures r.Keys == cells.Keys
  {
    map c | c in cells :: if c in line then cells[c].(wasteOnRecycle := true) else cells[c]
  }

  function InvalidateStore(s: Store): Store {
    s.(cells := Marked(Cleared(s.cells, s.available), s.used),
       available := [], wasted := s.wasted + s.available)
  }

  /** `reset` on a handle: a new value goes into a cell its holder keeps. */
  function ResetCell(s: Store, c: CellId, v: Resource, now: Ticks): Store
    requires s.Has(c)
  {
    s.(cells := s.cells[c := s.cells[c].(value := Some(v), resetTime := now)])
  }

  /** The handed-over cell loses its value. */
  function EmptyCell(s: Store, c: CellId): Store
    requires s.Has(c)
  {
    s.(cells := s.cells[c := s.cells[c].(value := None)])
  }

  // ---------------------------------------------------------------------------------------
  // What the closed forms promise.

  /** A balanced storage lists only cells it has, and none of them twice. */
  lemma BalancedCounts(s: Store, c: CellId)
    requires s.Balanced()
    ensures multiset(s.available)[c] + multiset(s.used)[c] + multiset(s.wasted)[c] == if s.Has(c) then 1 else 0
  {
    assert multiset(s.cells.Keys)[c] == if s.Has(c) then 1 else 0;
    assert (multiset(s.available) + multiset(s.used) + multiset(s.wasted))[c] == multiset(s.cells.Keys)[c];
  }

  lemma BalancedListed(s: Store)
    requires s.Balanced()
    ensures s.Listed()
  {
    forall i | 0 <= i < |s.available| ensures s.available[i] in s.cells { BalancedCounts(s, s.available[i]); }
    forall i | 0 <= i < |s.used| ensures s.used[i] in s.cells { BalancedCounts(s, s.used[i]); }
    forall i | 0 <= i < |s.wasted| ensures s.wasted[i] in s.cells { BalancedCounts(s, s.wasted[i]); }
  }

  /** A sequence whose elements are counted at most once has no duplicates. */
  lemma Distinct(line: seq<CellId>)
    requires forall c :: multiset(line)[c] <= 1
    ensures forall i, j :: 0 <= i < j < |line| ==> line[i] != line[j]
  {
    forall i, j | 0 <= i < j < |line|
      ensures line[i] != line[j]
    {
      assert line == line[..j] + line[j..];
      assert line[i] in line[..j] && line[j] in line[j..];
      assert multiset(line)[line[i]] == multiset(line[..j])[line[i]] + multiset(line[j..])[line[i]];
    }
  }

  /** The multiset invariant says what it should: no duplicates, no overlap, nothing lost. */
  lemma PartitionMeaning(s: Store)
    requires s.Balanced()
    ensures forall c :: c in s.cells <==> c in s.available || c in s.used || c in s.wasted
    ensures forall c :: c in s.used ==> c !in s.available && c !in s.wasted
    ensures forall c :: c in s.available ==> c !in s.wasted
    ensures forall i, j :: 0 <= i < j < |s.available| ==> s.available[i] != s.available[j]
    ensures forall i, j :: 0 <= i < j < |s.used| ==> s.used[i] != s.used[j]
    ensures forall i, j :: 0 <= i < j < |s.wasted| ==> s.wasted[i] != s.wasted[j]
    ensures |s.available| + |s.used| + |s.wasted| == |s.cells|
  {
    forall c
      ensures c in s.cells <==> c in s.available || c in s.used || c in s.wasted
      ensures c in s.used ==> c !in s.available && c !in s.wasted
      ensures c in s.available ==> c !in s.wasted
      ensures multiset(s.available)[c] <= 1 && multiset(s.used)[c] <= 1 && multiset(s.wasted)[c] <= 1
    {
      BalancedCounts(s, c);
    }
    Distinct(s.available);
    Distinct(s.used);
    Distinct(s.wasted);
    assert |multiset(s.available) + multiset(s.used) + multiset(s.wasted)|
        == |s.available| + |s.used| + |s.wasted|;
  }

  /** A used cell exists and is on no other list. */
  lemma UsedIsApart(s: Store, c: CellId)
    requires s.Balanced() && c in s.used
    ensures s.Has(c) && c !in s.available && c !in s.wasted && c !in Without(s.used, c)
  {
    BalancedCounts(s, c);
  }

  lemma UsedExists(s: Store, c: CellId)
    requires s.Valid() && c in s.used
    ensures s.Has(c)
  {
    var i :| 0 <= i < |s.used| && s.used[i] == c;
  }

  lemma RetiredKeepsValid(s: Store, k: nat)
    requires s.Valid() && k <= |s.available|
    ensures Retired(s, k).Valid() && Retired(s, k).cells.Keys == s.cells.Keys
  {
    var d := Retired(s, k);
    assert s.available == s.available[..k] + s.available[k..];
    assert d.cells.Keys == s.cells.Keys;
    BalancedListed(d);
    forall c | d.Has(c) ensures d.CellOk(c) {
      assert s.CellOk(c);
      BalancedCounts(d, c);
    }
  }

  lemma TakeAvailableKeepsValid(s: Store)
    requires s.Valid() && s.available != []
    ensures TakeAvailable(s).Valid()
    ensures s.available[0] !in s.used && s.available[0] !in s.wasted && s.available[0] !in s.available[1..]
  {
    var t := TakeAvailable(s);
    assert s.available == [s.available[0]] + s.available[1..];
    BalancedListed(t);
    BalancedCounts(s, s.available[0]);
    forall c | t.Has(c) ensures t.CellOk(c) {
      assert s.CellOk(c);
    }
  }

  lemma TakeWastedKeepsValid(s: Store)
    requires s.Valid() && s.wasted != []
    ensures TakeWasted(s).Valid() && TakeWasted(s).cells.Keys == s.cells.Keys
    ensures s.wasted[0] !in s.used && s.wasted[0] !in s.available && s.wasted[0] !in s.wasted[1..]
  {
    var t := TakeWasted(s);
    assert s.wasted == [s.wasted[0]] + s.wasted[1..];
    assert t.cells.Keys == s.cells.Keys;
    BalancedListed(t);
    BalancedCounts(s, s.wasted[0]);
    forall c | t.Has(c) ensures t.CellOk(c) {
      assert s.CellOk(c);
    }
  }

  lemma LeaseKeepsValid(s: Store, now: Ticks)
    requires s.Valid()
    ensures Lease(s, now).0.Valid() && Lease(s, now).0.cells.Keys == s.cells.Keys
  {
    var k := FirstLive(s.cells, s.available, now);
    RetiredKeepsValid(s, k);
    var d := Retired(s, k);
    if d.available != [] {
      TakeAvailableKeepsValid(d);
    } else if d.wasted != [] {
      TakeWastedKeepsValid(d);
    }
  }

  /** A lease fails exactly when every cell is in use, and then it changes nothing. */
  lemma LeaseFailsOnlyWhenAllUsed(s: Store, now: Ticks)
    requires s.Valid()
    ensures Lease(s, now).1.None? <==> s.available == [] && s.wasted == []
    ensures Lease(s, now).1.None? <==> |s.used| == |s.cells|
    ensures Lease(s, now).1.None? ==> Lease(s, now).0 == s
  {
    PartitionMeaning(s);
    var k := FirstLive(s.cells, s.available, now);
    if Lease(s, now).1.None? {
      assert s.wasted + s.available[..k] == [] && s.available[k..] == [];
      assert Cleared(s.cells, s.available[..k]) == s.cells;
    }
  }

  /** What retiring expired cells does to one cell. */
  lemma RetiredTouches(s: Store, k: nat, c: CellId)
    requires s.Valid() && k <= |s.available| && s.Has(c)
    ensures var d := Retired(s, k);
            && d.Has(c)
            && (c in d.available ==> c in s.available)
            && (c in d.available || c in s.used ==> d.cells[c] == s.cells[c])
            && (d.cells[c] == s.cells[c] || d.cells[c] == s.cells[c].(value := None))
  {
    var d := Retired(s, k);
    assert s.available == s.available[..k] + s.available[k..];
    BalancedCounts(s, c);
  }

  /** What a lease does to one cell. */
  lemma LeaseTouches(s: Store, now: Ticks, c: CellId)
    requires s.Valid() && s.Has(c)
    ensures var (t, r) := Lease(s, now);
            && t.Has(c)
            && (c in t.available ==> c in s.available)
            && (c in t.available || (c in s.used && r != Some(c)) ==> t.cells[c] == s.cells[c])
            && t.cells[c].dropTime == s.cells[c].dropTime && t.cells[c].resetTime == s.cells[c].resetTime
            && (t.cells[c].value == s.cells[c].value || t.cells[c].value == None)
            && (r == Some(c) ==> !t.cells[c].wasteOnRecycle && c !in s.used)
            && (r == Some(c) && t.cells[c].value.Some? ==>
                  c in s.available && now < s.cells[c].dropTime && t.cells[c] == s.cells[c])
  {
    var k := FirstLive(s.cells, s.available, now);
    var d := Retired(s, k);
    RetiredKeepsValid(s, k);
    RetiredTouches(s, k, c);
    assert d.CellOk(c);
    if d.available != [] {
      TakeAvailableKeepsValid(d);
      assert d.available[0] == s.available[k];
    } else if d.wasted != [] {
      TakeWastedKeepsValid(d);
    }
  }

  /** A leased cell is a live available one, or else an empty one with its mark removed. */
  lemma LeaseDelivers(s: Store, now: Ticks)
    requires s.Valid()
    ensures Lease(s, now).0.Valid() && Lease(s, now).0.cells.Keys == s.cells.Keys
    ensures var (t, r) := Lease(s, now);
            r.Some? ==>
              && var c := r.value;
              && s.Has(c) && t.Has(c) && c !in s.used && t.used == s.used + [c]
              && !t.cells[c].wasteOnRecycle
              && (t.cells[c].value.Some? ==>
                    c in s.available && t.cells[c] == s.cells[c] && now < s.cells[c].dropTime <= s.LifeEnd(c))
  {
    LeaseKeepsValid(s, now);
    var (t, r) := Lease(s, now);
    if r.Some? {
      assert t.used[|s.used|] == r.value;
      assert s.CellOk(r.value);
      LeaseTouches(s, now, r.value);
    }
  }

  /**
   * The first idle cell that is still live is leased as it is; those before it have expired, so they are emptied and
   * join the wasted cells; those after it stay idle. Every other cell is as it was.
   */
  lemma LiveIdleIsLeased(s: Store, now: Ticks, k: nat)
    requires s.Valid() && k < |s.available| && s.cells[s.available[k]].dropTime > now
    requires forall i :: 0 <= i < k ==> s.cells[s.available[i]].dropTime <= now
    ensures var (t, r) := Lease(s, now);
            && r == Some(s.available[k]) && t.used == s.used + [s.available[k]]
            && t.available == s.available[k + 1..] && t.wasted == s.wasted + s.available[..k]
            && t.cells.Keys == s.cells.Keys
            && (forall i :: 0 <= i < k ==> t.cells[s.available[i]].value == None)
            && (forall c :: c in s.cells && c !in s.available[..k] ==> t.cells[c] == s.cells[c])
  {
    assert FirstLive(s.cells, s.available, now) == k;
    assert s.available[k..][1..] == s.available[k + 1..];
    forall i | 0 <= i < k
      ensures Cleared(s.cells, s.available[..k])[s.available[i]].value == None
    {
      assert s.available[i] in s.available[..k];
    }
  }

  /** With no idle cell live, all of them expire, and the cell that has been wasted longest is leased, unmarked. */
  lemma WastedIsLeased(s: Store, now: Ticks)
    requires s.Valid() && s.wasted + s.available != []
    requires forall i :: 0 <= i < |s.available| ==> s.cells[s.available[i]].dropTime <= now
    ensures var (t, r) := Lease(s, now);
            && r == Some((s.wasted + s.available)[0]) && t.used == s.used + [r.value]
            && t.available == [] && t.wasted == (s.wasted + s.available)[1..]
            && t.cells.Keys == s.cells.Keys
            && (forall i :: 0 <= i < |s.available| ==> t.cells[s.available[i]].value == None)
            && t.cells[r.value].value == None && !t.cells[r.value].wasteOnRecycle
            && (forall c :: c in s.cells && c !in s.available && c != r.value ==> t.cells[c] == s.cells[c])
  {
    var n := |s.available|;
    assert FirstLive(s.cells, s.available, now) == n;
    assert s.available[..n] == s.available && s.available[n..] == [];
    LeaseDelivers(s, now);
    var c := (s.wasted + s.available)[0];
    assert s.CellOk(c);
  }

  lemma RecycleKeepsValid(s: Store, c: CellId, now: Ticks)
    requires s.Valid() && c in s.used
    ensures s.Has(c)
    ensures RecycleCell(s, c, now).Valid()
    ensures RecycleCell(s, c, now).cells.Keys == s.cells.Keys
  {
    UsedIsApart(s, c);
    WasteKeepsValid(s, c);
    var t := RecycleCell(s, c, now);
    assert t.cells.Keys == s.cells.Keys;
    assert t.Balanced();
    BalancedListed(t);
    forall d | t.Has(d) ensures t.CellOk(d) {
      assert s.CellOk(d);
    }
  }

  /** Every cell but `c` is as it was. */
  ghost predicate OthersKept(s: Store, t: Store, c: CellId) {
    && t.idleTimeout == s.idleTimeout && t.lifespan == s.lifespan && t.cells.Keys == s.cells.Keys
    && forall d :: d in s.cells && d != c ==> t.cells[d] == s.cells[d]
  }

  /**
   * A returned value that is not marked and has life left becomes the last idle one, to be dropped when its idle time
   * or its life ends, whichever is first; any other is destroyed and its cell wasted.
   */
  lemma RecycleMeaning(s: Store, c: CellId, now: Ticks)
    requires s.Valid() && c in s.used
    ensures s.Has(c)
    ensures var t := RecycleCell(s, c, now);
            var lifeEnd := Clamp(s.cells[c].resetTime + s.lifespan);
            && c in t.cells && OthersKept(s, t, c) && multiset(t.used) == multiset(s.used) - multiset{c}
            && if !s.cells[c].wasteOnRecycle && lifeEnd > now then
                 && t.available == s.available + [c] && t.wasted == s.wasted
                 && t.cells[c].value == s.cells[c].value
                 && t.cells[c].resetTime == s.cells[c].resetTime && !t.cells[c].wasteOnRecycle
                 && (t.cells[c].dropTime == Clamp(now + s.idleTimeout) || t.cells[c].dropTime == lifeEnd)
                 && t.cells[c].dropTime <= Clamp(now + s.idleTimeout) && t.cells[c].dropTime <= lifeEnd
               else t.available == s.available && t.wasted == s.wasted + [c] && t.cells[c].value == None
  {
    UsedIsApart(s, c);
  }

  /** A wasted cell is emptied and becomes the last of the wasted ones. */
  lemma WasteMeaning(s: Store, c: CellId)
    requires s.Valid() && c in s.used
    ensures s.Has(c)
    ensures var t := WasteCell(s, c);
            && c in t.cells && t.cells[c].value == None && OthersKept(s, t, c)
            && t.available == s.available && t.wasted == s.wasted + [c]
            && multiset(t.used) == multiset(s.used) - multiset{c}
  {
    UsedIsApart(s, c);
  }

  lemma WasteKeepsValid(s: Store, c: CellId)
    requires s.Valid() && c in s.used
    ensures s.Has(c)
    ensures WasteCell(s, c).Valid()
    ensures WasteCell(s, c).cells.Keys == s.cells.Keys
  {
    UsedIsApart(s, c);
    var t := WasteCell(s, c);
    assert t.cells.Keys == s.cells.Keys;
    assert t.Balanced();
    BalancedListed(t);
    forall d | t.Has(d) ensures t.CellOk(d) {
      assert s.CellOk(d);
    }
  }

  /** After `invalidate` no idle cell holds a value and every cell in use is marked. */
  lemma InvalidateKeepsValid(s: Store)
    requires s.Valid()
    ensures InvalidateStore(s).Valid()
    ensures InvalidateStore(s).cells.Keys == s.cells.Keys
    ensures forall c :: s.Has(c) ==>
              if c in s.used then InvalidateStore(s).cells[c] == s.cells[c].(wasteOnRecycle := true)
              else InvalidateStore(s).cells[c].value.None?
    ensures var t := InvalidateStore(s);
            t.available == [] && t.used == s.used && t.wasted == s.wasted + s.available
  {
    var t := InvalidateStore(s);
    assert t.cells.Keys == s.cells.Keys;
    assert t.Balanced();
    BalancedListed(t);
    PartitionMeaning(s);
    forall d | t.Has(d) ensures t.CellOk(d) {
      assert s.CellOk(d);
    }
    forall c | s.Has(c) ensures c !in s.used ==> t.cells[c].value.None? {
      assert s.CellOk(c);
    }
  }

  /** Writing into a cell that someone holds keeps the storage valid. */
  lemma HeldCellWrites(s: Store, c: CellId, w: Cell)
    requires s.Valid() && c in s.used
    ensures s.(cells := s.cells[c := w]).Valid()
    ensures s.(cells := s.cells[c := w]).cells.Keys == s.cells.Keys
  {
    UsedIsApart(s, c);
    var t := s.(cells := s.cells[c := w]);
    assert t.cells.Keys == s.cells.Keys;
    forall d | t.Has(d) ensures t.CellOk(d) {
      assert s.CellOk(d);
    }
  }

  // ---------------------------------------------------------------------------------------
  // The object.

  /** One turn of the leasing loop: the first available cell has expired and joins the wasted ones. */
  function DropFirst(s: Store): Store
    requires s.available != [] && s.Has(s.available[0])
  {
    var c := s.available[0];
    s.(cells := s.cells[c := s.cells[c].(value := None)], available := s.available[1..], wasted := s.wasted + [c])
  }

  lemma RetiredAfterDrop(s: Store, k: nat)
    requires 0 < k <= |s.available| && s.Has(s.available[0])
    ensures Retired(DropFirst(s), k - 1) == Retired(s, k)
  {
    var d := DropFirst(s);
    assert s.available[..k] == [s.available[0]] + d.available[..k - 1];
    assert s.available[k..] == d.available[k - 1..];
    assert s.wasted + s.available[..k] == d.wasted + d.available[..k - 1];
    ClearedFirst(s.cells, s.available[0], d.available[..k - 1]);
  }

  lemma LeaseAfterDrop(s: Store, now: Ticks)
    requires s.available != []
    requires Known(s.cells, s.available) && Known(s.cells, s.wasted)
    requires s.cells[s.available[0]].dropTime <= now
    ensures var d := DropFirst(s); Known(d.cells, d.available) && Known(d.cells, d.wasted)
    ensures Lease(DropFirst(s), now) == Lease(s, now)
  {
    var d := DropFirst(s);
    SameDrops(s.cells, d.cells, d.available, now);
    RetiredAfterDrop(s, FirstLive(s.cells, s.available, now));
  }

  lemma ClearedFirst(cells: map<CellId, Cell>, c: CellId, line: seq<CellId>)
    requires c in cells
    ensures Cleared(cells, [c] + line) == Cleared(cells[c := cells[c].(value := None)], line)
  {
  }

  lemma RetiredNone(s: Store)
    ensures Retired(s, 0) == s
  {
    assert Cleared(s.cells, s.available[..0]) == s.cells;
  }

  lemma SameDrops(a: map<CellId, Cell>, b: map<CellId, Cell>, line: seq<CellId>, now: Ticks)
    requires Known(a, line) && Known(b, line)
    requires forall i :: 0 <= i < |line| ==> a[line[i]].dropTime == b[line[i]].dropTime
    ensures FirstLive(a, line, now) == FirstLive(b, line, now)
  {
  }

  /** A storage whose cells are numbered from zero on one list is valid. */
  lemma NumberedValid(s: Store, n: nat)
    requires multiset(s.available) + multiset(s.used) + multiset(s.wasted) == Below(n)
    requires forall c: nat :: c in s.cells <==> c < n
    requires forall c :: s.Has(c) ==> s.CellOk(c)
    ensures s.Valid() && |s.cells| == n
  {
    var keys := multiset(s.cells.Keys);
    forall c: nat ensures keys[c] == Below(n)[c] {}
    assert keys == Below(n);
    assert |Below(n)| == |Upto(n)|;
    BalancedListed(s);
  }

  lemma ClearedNext(cells: map<CellId, Cell>, line: seq<CellId>, i: nat)
    requires i < |line| && line[i] in cells
    ensures line[i] in Cleared(cells, line[..i])
    ensures var m := Cleared(cells, line[..i]);
            m[line[i] := m[line[i]].(value := None)] == Cleared(cells, line[..i + 1])
  {
    assert line[..i + 1] == line[..i] + [line[i]];
  }

  lemma MarkedNext(cells: map<CellId, Cell>, line: seq<CellId>, i: nat)
    requires i < |line| && line[i] in cells
    ensures line[i] in Marked(cells, line[..i])
    ensures var m := Marked(cells, line[..i]);
            m[line[i] := m[line[i]].(wasteOnRecycle := true)] == Marked(cells, line[..i + 1])
  {
    assert line[..i + 1] == line[..i] + [line[i]];
  }

  /** A cell as the generator constructor makes it: the earlier of the two deadlines is its drop time. */
  function GeneratedCell(v: Resource, now: Ticks, idleTimeout: Ticks, lifespan: Ticks): Cell {
    Cell(Some(v), Earlier(Add(now, idleTimeout), Add(now, lifespan)), now, false)
  }

  /** Cell `i` holds `values[i]` and is idle since `now`. */
  ghost predicate Generates(s: Store, values: seq<Resource>, now: Ticks, idleTimeout: Ticks, lifespan: Ticks) {
    && s.idleTimeout == idleTimeout && s.lifespan == lifespan
    && |s.available| == |values| && s.used == [] && s.wasted == []
    && forall i :: 0 <= i < |values| ==>
         s.available[i] == i && i in s.cells && s.cells[i] == GeneratedCell(values[i], now, idleTimeout, lifespan)
  }

  /** Every generated value is idle in its own cell, until its idle time or its life ends, whichever is first. */
  lemma GeneratedMeaning(s: Store, values: seq<Resource>, now: Ticks, idleTimeout: Ticks, lifespan: Ticks, i: nat)
    requires Generates(s, values, now, idleTimeout, lifespan) && i < |values|
    ensures var w := s.cells[s.available[i]];
            && w.value == Some(values[i]) && w.resetTime == now && !w.wasteOnRecycle
            && (w.dropTime == Clamp(now + idleTimeout) || w.dropTime == Clamp(now + lifespan))
            && w.dropTime <= Clamp(now + idleTimeout) && w.dropTime <= Clamp(now + lifespan)
  {
  }

  class CellStorage {
    const idleTimeout: Ticks
    const lifespan: Ticks
    var cells: map<CellId, Cell>
    var available: seq<CellId>
    var used: seq<CellId>
    var wasted: seq<CellId>

    ghost function State(): Store
      reads this
    {
      Store(idleTimeout, lifespan, cells, available, used, wasted)
    }

    /** An empty storage: every cell starts out wasted. */
    constructor (capacity: nat, idleTimeout: Ticks, lifespan: Ticks)
      ensures State().Valid()
      ensures this.idleTimeout == idleTimeout && this.lifespan == lifespan
      ensures |cells| == capacity && available == [] && used == []
    {
      this.idleTimeout := idleTimeout;
      this.lifespan := lifespan;
      available, used, wasted := [], [], Upto(capacity);
      cells := map c | c in Upto(capacity) :: Cell(None, MAX_TICKS, 0, false);
      new;
      NumberedValid(State(), capacity);
    }

    /** A storage filled from a generator: cell `i` holds `values[i]`. */
    constructor Generated(values: seq<Resource>, now: Ticks, idleTimeout: Ticks, lifespan: Ticks)
      ensures State().Valid() && Generates(State(), values, now, idleTimeout, lifespan)
    {
      this.idleTimeout := idleTimeout;
      this.lifespan := lifespan;
      used, wasted := [], [];
      var filled, line := Fill(values, Earlier(Add(now, idleTimeout), Add(now, lifespan)), now);
      cells, available := filled, line;
      new;
      NumberedValid(State(), |values|);
    }

    /** The loop of the generator constructor: one available cell per generated value. */
    static method Fill(values: seq<Resource>, dropTime: Ticks, now: Ticks)
      returns (cells: map<CellId, Cell>, available: seq<CellId>)
      ensures available == Upto(|values|)
      ensures forall c: nat :: c in cells <==> c < |values|
      ensures forall i :: 0 <= i < |values| ==> cells[i] == Cell(Some(values[i]), dropTime, now, false)
    {
      cells, available := map[], [];
      for i := 0 to |values|
        invariant |available| == i && forall j :: 0 <= j < i ==> available[j] == j
        invariant forall c: nat :: c in cells <==> c < i
        invariant forall j :: 0 <= j < i ==> cells[j] == Cell(Some(values[j]), dropTime, now, false)
      {
        available := available + [i];
        cells := cells[i := Cell(Some(values[i]), dropTime, now, false)];
      }
    }

    /** The first available cell loses its value and joins the wasted ones. */
    method DropExpired()
      requires available != [] && available[0] in cells
      modifies this
      ensures State() == DropFirst(old(State()))
    {
      var candidate := available[0];
      cells := cells[candidate := cells[candidate].(value := None)];
      available, wasted := available[1..], wasted + [candidate];
    }

    method LeaseCell(now: Ticks) returns (r: Option<CellId>)
      requires State().Valid()
      modifies this
      ensures (State(), r) == Lease(old(State()), now)
    {
      while available != []
        invariant Known(cells, available) && Known(cells, wasted)
        invariant Lease(State(), now) == Lease(old(State()), now)
      {
        var candidate := available[0];
        if cells[candidate].dropTime > now {
          RetiredNone(State());
          available, used := available[1..], used + [candidate];
          return Some(candidate);
        }
        LeaseAfterDrop(State(), now);
        DropExpired();
      }
      RetiredNone(State());
      if wasted != [] {
        var result := wasted[0];
        cells := cells[result := cells[result].(wasteOnRecycle := false)];
        used, wasted := used + [result], wasted[1..];
        return Some(result);
      }
      return None;
    }

    method Recycle(c: CellId, now: Ticks)
      requires State().Valid() && c in used
      modifies this
      ensures old(State()).Has(c) && State() == RecycleCell(old(State()), c, now) && State().Valid()
    {
      RecycleKeepsValid(State(), c, now);
      if cells[c].wasteOnRecycle {
        Waste(c);
        return;
      }
      var lifeEnd := Add(cells[c].resetTime, lifespan);
      if lifeEnd <= now {
        Waste(c);
        return;
      }
      cells := cells[c := cells[c].(dropTime := Earlier(Add(now, idleTimeout), lifeEnd))];
      available, used := available + [c], Without(used, c);
    }

    method Waste(c: CellId)
      requires State().Valid() && c in used
      modifies this
      ensures old(State()).Has(c) && State() == WasteCell(old(State()), c) && State().Valid()
    {
      WasteKeepsValid(State(), c);
      cells := cells[c := cells[c].(value := None)];
      wasted, used := wasted + [c], Without(used, c);
    }

    /** A holder writes through its iterator: destroy the value. */
    method Empty(c: CellId)
      requires State().Valid() && c in used
      modifies this`cells
      ensures old(State()).Has(c) && State() == EmptyCell(old(State()), c) && State().Valid()
    {
      UsedIsApart(State(), c);
      HeldCellWrites(State(), c, cells[c].(value := None));
      cells := cells[c := cells[c].(value := None)];
    }

    /** A holder writes through its iterator: put a new value in. */
    method Reset(c: CellId, v: Resource, now: Ticks)
      requires State().Valid() && c in used
      modifies this`cells
      ensures old(State()).Has(c) && State() == ResetCell(old(State()), c, v, now) && State().Valid()
    {
      UsedIsApart(State(), c);
      HeldCellWrites(State(), c, cells[c].(value := Some(v), resetTime := now));
      cells := cells[c := cells[c].(value := Some(v), resetTime := now)];
    }

    /** A cell about to be handed over loses its value unless it is still usable. */
    method Refresh(c: CellId, now: Ticks)
      requires State().Valid() && c in used
      modifies this
      ensures State().Valid() && old(State()).Has(c)
      ensures State() == if IsValid(old(State()), c, now) then old(State()) else EmptyCell(old(State()), c)
    {
      UsedExists(State(), c);
      var valid := Usable(c, now);
      if !valid {
        Empty(c);
      }
    }

    method Usable(c: CellId, now: Ticks) returns (r: bool)
      requires c in cells
      ensures r == IsValid(State(), c, now)
    {
      if cells[c].wasteOnRecycle {
        return false;
      }
      var lifeEnd := Add(cells[c].resetTime, lifespan);
      if lifeEnd <= now {
        return false;
      }
      return true;
    }

    /** First loop of `invalidate`: idle cells lose their values. */
    method ClearAvailable()
      requires Known(cells, available)
      modifies this`cells
      ensures cells == Cleared(old(cells), available)
    {
      assert cells == Cleared(cells, available[..0]);
      for i := 0 to |available|
        invariant cells == Cleared(old(cells), available[..i])
      {
        ClearedNext(old(cells), available, i);
        cells := cells[available[i] := cells[available[i]].(value := None)];
      }
      assert available[..|available|] == available;
    }

    /** Second loop of `invalidate`: cells in use are marked. */
    method MarkUsed()
      requires Known(cells, used)
      modifies this`cells
      ensures cells == Marked(old(cells), used)
    {
      assert cells == Marked(cells, used[..0]);
      for i := 0 to |used|
        invariant cells == Marked(old(cells), used[..i])
      {
        MarkedNext(old(cells), used, i);
        cells := cells[used[i] := cells[used[i]].(wasteOnRecycle := true)];
      }
      assert used[..|used|] == used;
    }

    method Invalidate()
      requires State().Valid()
      modifies this
      ensures State() == InvalidateStore(old(State())) && State().Valid()
    {
      InvalidateKeepsValid(State());
      ClearAvailable();
      wasted, available := wasted + available, [];
      MarkUsed();
    }
  }
}
