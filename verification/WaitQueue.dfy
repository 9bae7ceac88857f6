/**
 The bounded queue of waiting requests.

 `Line` is the simple form: waiters in arrival order and the waits armed per execution context.
 `WaitQueue` is the fast form: list nodes that are recycled through a spare list, a multimap ordered
 by expiry, and back-references from a node to its own multimap entry. Every method of the fast form
 is proved to do what the simple form says.
 */
module WaitQueues {
  import opened Basics
  import opened TimeTraits

  datatype Strategy = AutoRecycle | AutoWaste
  datatype Request = Request(id: nat, strategy: Strategy)
  datatype Executor = Executor(context: nat, strand: nat)
  datatype Waiter = Waiter(request: Request, executor: Executor, expiresAt: Ticks)

  /** `timers[c]` is the timer of context `c`; it holds the expiry its wait is armed for, if any. */
  datatype Line = Line(capacity: nat, waiters: seq<Waiter>, timers: map<nat, Option<Ticks>>)

  // ---------------------------------------------------------------------------------------
  // The simple form.

  /** The waiter that expires first; of several, the one that arrived first. */
  function Earliest(ws: seq<Waiter>): (k: nat)
    requires ws != []
    ensures k < |ws|
    ensures forall i :: 0 <= i < |ws| ==> ws[k].expiresAt <= ws[i].expiresAt
    ensures forall i :: 0 <= i < k ==> ws[k].expiresAt < ws[i].expiresAt
  {
    if |ws| == 1 then 0
    else
      var k := Earliest(ws[1..]);
      if ws[0].expiresAt <= ws[1..][k].expiresAt then 0 else k + 1
  }

  /** Arm one wait for the earliest waiter on its own context; drop every timer when nobody waits. */
  function Rearm(q: Line): Line {
    if q.waiters == [] then q.(timers := map[])
    else
      var w := q.waiters[Earliest(q.waiters)];
      q.(timers := q.timers[w.executor.context := Some(w.expiresAt)])
  }

  /** One wait is armed, for the least expiry, on the context of the first to have it; other timers are left alone. */
  lemma RearmMeaning(q: Line, k: nat)
    requires k < |q.waiters|
    requires forall i :: 0 <= i < |q.waiters| ==> q.waiters[k].expiresAt <= q.waiters[i].expiresAt
    requires forall i :: 0 <= i < k ==> q.waiters[k].expiresAt < q.waiters[i].expiresAt
    ensures var r, context := Rearm(q), q.waiters[k].executor.context;
            && r.waiters == q.waiters && r.capacity == q.capacity
            && context in r.timers && r.timers[context] == Some(q.waiters[k].expiresAt)
            && forall c :: c != context ==>
                 (c in r.timers <==> c in q.timers) && (c in q.timers ==> r.timers[c] == q.timers[c])
  {
    assert Earliest(q.waiters) == k;
  }

  lemma RearmEmpty(q: Line)
    requires q.waiters == []
    ensures Rearm(q) == Line(q.capacity, [], map[])
  {
  }

  /** Updating the timers twice is updating them once. */
  lemma RearmAgain(q: Line)
    ensures Rearm(Rearm(q)) == Rearm(q)
  {
  }

  function PushWaiter(q: Line, w: Waiter): Line {
    if |q.waiters| < q.capacity then Rearm(q.(waiters := q.waiters + [w])) else q
  }

  function PopWaiter(q: Line): Line {
    if q.waiters == [] then q else Rearm(q.(waiters := q.waiters[1..]))
  }

  /** The waiters whose expiry lies after `t`, in arrival order. */
  function Pending(ws: seq<Waiter>, t: Ticks): (r: seq<Waiter>)
    ensures forall w :: w in r <==> w in ws && w.expiresAt > t
    ensures |r| <= |ws|
  {
    if ws == [] then []
    else
      assert forall w :: w in ws <==> w == ws[0] || w in ws[1..];
      if ws[0].expiresAt > t then [ws[0]] + Pending(ws[1..], t) else Pending(ws[1..], t)
  }

  function ExpireWaiters(q: Line, t: Ticks): Line {
    Rearm(q.(waiters := Pending(q.waiters, t)))
  }

  /** The wait for context `c` completes: its timer object stays, with nothing armed. */
  function WaitCompletes(q: Line, c: nat): Line {
    q.(timers := q.timers[c := None])
  }

  predicate SortedByExpiry(ws: seq<Waiter>) {
    forall i, j :: 0 <= i < j < |ws| ==> ws[i].expiresAt <= ws[j].expiresAt
  }

  /** `posted` are exactly the waiters that time out at `t`, in expiry order. */
  ghost predicate TimesOut(ws: seq<Waiter>, t: Ticks, posted: seq<Waiter>) {
    && SortedByExpiry(posted)
    && (forall w :: w in posted ==> w.expiresAt <= t)
    && multiset(posted) + multiset(Pending(ws, t)) == multiset(ws)
  }

  // ---------------------------------------------------------------------------------------
  // The fast form.

  type NodeId = nat
  type EntryId = nat

  datatype Node = Node(executor: Executor, request: Request, orderIt: NodeId, expiresIt: EntryId)
  datatype Entry = Entry(at: Ticks, id: EntryId, node: NodeId)

  predicate Before(a: Entry, b: Entry) {
    a.at < b.at || (a.at == b.at && a.id < b.id)
  }

  predicate SortedEntries(es: seq<Entry>) {
    forall i, j :: 0 <= i < j < |es| ==> Before(es[i], es[j])
  }

  /** Where a key goes in the multimap: after every entry with the same or an earlier key. */
  function UpperBound(es: seq<Entry>, t: Ticks): (k: nat)
    requires SortedEntries(es)
    ensures k <= |es|
    ensures forall i :: 0 <= i < k ==> es[i].at <= t
    ensures forall i :: k <= i < |es| ==> es[i].at > t
  {
    if es == [] || es[0].at > t then 0
    else
      assert SortedEntries(es[1..]);
      1 + UpperBound(es[1..], t)
  }

  /** Position of the multimap entry an iterator refers to. */
  function Position(es: seq<Entry>, id: EntryId): (k: nat)
    ensures k <= |es|
    ensures k < |es| ==> es[k].id == id
    ensures forall i :: 0 <= i < k ==> es[i].id != id
  {
    if es == [] || es[0].id == id then 0 else 1 + Position(es[1..], id)
  }

  function NodesOf(es: seq<Entry>): (r: seq<NodeId>)
    ensures |r| == |es|
    ensures forall i :: 0 <= i < |es| ==> r[i] == es[i].node
  {
    seq(|es|, i requires 0 <= i < |es| => es[i].node)
  }

  function WaiterOf(nodes: map<NodeId, Node>, due: map<NodeId, Ticks>, n: NodeId): Waiter
    requires n in nodes && n in due
  {
    Waiter(nodes[n].request, nodes[n].executor, due[n])
  }

  ghost predicate AllKnown(nodes: map<NodeId, Node>, due: map<NodeId, Ticks>, ids: seq<NodeId>) {
    forall i :: 0 <= i < |ids| ==> ids[i] in nodes && ids[i] in due
  }

  ghost function WaitersOf(nodes: map<NodeId, Node>, due: map<NodeId, Ticks>, ids: seq<NodeId>): (r: seq<Waiter>)
    requires AllKnown(nodes, due, ids)
    ensures |r| == |ids|
    ensures forall i :: 0 <= i < |ids| ==> r[i] == WaiterOf(nodes, due, ids[i])
  {
    seq(|ids|, i requires 0 <= i < |ids| => WaiterOf(nodes, due, ids[i]))
  }

  /** The multimap with an entry put where a key of its own goes. */
  function InsertAt(es: seq<Entry>, k: nat, e: Entry): (r: seq<Entry>)
    requires k <= |es|
    ensures |r| == |es| + 1 && r[k] == e
    ensures forall i :: 0 <= i < |r| ==> r[i] == if i < k then es[i] else if i == k then e else es[i - 1]
  {
    es[..k] + [e] + es[k..]
  }

  function EraseAt(es: seq<Entry>, k: nat): (r: seq<Entry>)
    requires k < |es|
    ensures |r| == |es| - 1
    ensures forall i :: 0 <= i < |r| ==> r[i] == if i < k then es[i] else es[i + 1]
  {
    es[..k] + es[k + 1..]
  }

  lemma InsertNodes(es: seq<Entry>, k: nat, e: Entry)
    requires k <= |es|
    ensures multiset(NodesOf(InsertAt(es, k, e))) == multiset(NodesOf(es)) + multiset{e.node}
  {
    assert NodesOf(InsertAt(es, k, e)) == NodesOf(es[..k]) + [e.node] + NodesOf(es[k..]);
    assert NodesOf(es) == NodesOf(es[..k]) + NodesOf(es[k..]);
  }

  lemma EraseNodes(es: seq<Entry>, k: nat)
    requires k < |es|
    ensures multiset(NodesOf(EraseAt(es, k))) == multiset(NodesOf(es)) - multiset{es[k].node}
  {
    assert NodesOf(EraseAt(es, k)) == NodesOf(es[..k]) + NodesOf(es[k + 1..]);
    assert NodesOf(es) == NodesOf(es[..k]) + [es[k].node] + NodesOf(es[k + 1..]);
  }

  /** Everything the queue object holds but its capacity and its timers; `due` is the expiry of each node. */
  datatype Book = Book(
    nodes: map<NodeId, Node>,
    ordered: seq<NodeId>,
    spare: seq<NodeId>,
    expiring: seq<Entry>,
    nextNode: nat,
    nextEntry: nat,
    due: map<NodeId, Ticks>)
  {
    /** Each queued node knows its own list position and its own multimap entry; entries follow arrivals. */
    ghost predicate NodesOk() {
      && AllKnown(nodes, due, ordered)
      && (forall i :: 0 <= i < |ordered| ==>
            nodes[ordered[i]].orderIt == ordered[i] && nodes[ordered[i]].expiresIt < nextEntry)
      && (forall i, j :: 0 <= i < j < |ordered| ==> nodes[ordered[i]].expiresIt < nodes[ordered[j]].expiresIt)
    }

    /** Each multimap entry is the one its node points back to. */
    ghost predicate EntriesOk() {
      forall i :: 0 <= i < |expiring| ==> EntryOk(expiring[i])
    }

    ghost predicate EntryOk(e: Entry) {
      && e.node in nodes && e.node in due
      && nodes[e.node].expiresIt == e.id
      && due[e.node] == e.at
      && e.id < nextEntry
    }

    /** The arrival list and the multimap hold the same nodes. */
    ghost predicate SameNodes() {
      multiset(NodesOf(expiring)) == multiset(ordered)
    }

    /** Each node is queued or spare, and not both. */
    ghost predicate Balanced() {
      && multiset(ordered) + multiset(spare) == multiset(nodes.Keys)
      && (forall n :: n in nodes ==> n < nextNode)
    }

    ghost predicate Ok() {
      && NodesOk()
      && EntriesOk()
      && SortedEntries(expiring)
      && SameNodes()
      && Balanced()
    }

    ghost function Waiters(): (r: seq<Waiter>)
      requires AllKnown(nodes, due, ordered)
      ensures |r| == |ordered|
    {
      WaitersOf(nodes, due, ordered)
    }
  }

  lemma SizesAgree(b: Book)
    requires b.SameNodes()
    ensures |b.expiring| == |b.ordered|
  {
    assert |multiset(NodesOf(b.expiring))| == |multiset(b.ordered)|;
  }

  /** A queued node has an entry, and an entry's node is queued. */
  lemma EntryOfNode(b: Book, n: NodeId) returns (j: nat)
    requires b.SameNodes() && n in b.ordered
    ensures j < |b.expiring| && b.expiring[j].node == n
  {
    assert n in multiset(NodesOf(b.expiring));
    j :| 0 <= j < |b.expiring| && NodesOf(b.expiring)[j] == n;
  }

  lemma PlaceOfEntry(b: Book, j: nat) returns (p: nat)
    requires b.SameNodes() && j < |b.expiring|
    ensures p < |b.ordered| && b.ordered[p] == b.expiring[j].node
  {
    assert NodesOf(b.expiring)[j] in multiset(NodesOf(b.expiring));
    assert b.expiring[j].node in multiset(b.ordered);
    p :| 0 <= p < |b.ordered| && b.ordered[p] == b.expiring[j].node;
  }

  /** The head of the multimap is the waiter the simple form calls the earliest. */
  lemma HeadIsEarliest(b: Book)
    requires b.Ok() && b.expiring != []
    ensures b.ordered != []
    ensures var ws := b.Waiters();
            && b.EntryOk(b.expiring[0])
            && ws[Earliest(ws)] == WaiterOf(b.nodes, b.due, b.expiring[0].node)
            && ws[Earliest(ws)].expiresAt == b.expiring[0].at
  {
    var p := PlaceOfEntry(b, 0);
    var ws := b.Waiters();
    var j := EntryOfNode(b, b.ordered[Earliest(ws)]);
    assert j == 0 || Before(b.expiring[0], b.expiring[j]);
    assert b.EntryOk(b.expiring[j]) && b.EntryOk(b.expiring[0]);
  }

  /** The back-reference of a queued node leads to its own entry. */
  lemma OwnEntry(b: Book, p: nat, k: nat)
    requires b.Ok() && p < |b.ordered|
    requires k == Position(b.expiring, b.nodes[b.ordered[p]].expiresIt)
    ensures k < |b.expiring| && b.expiring[k].node == b.ordered[p] && b.expiring[k].at == b.due[b.ordered[p]]
  {
    var j := EntryOfNode(b, b.ordered[p]);
    assert b.EntryOk(b.expiring[j]) && b.EntryOk(b.expiring[k]);
    var q := PlaceOfEntry(b, k);
  }

  /** A spare node is not queued and not in the multimap. */
  lemma SpareIsApart(b: Book, n: NodeId)
    requires b.Ok() && n in b.spare
    ensures n in b.nodes
    ensures forall i :: 0 <= i < |b.ordered| ==> b.ordered[i] != n
    ensures forall i :: 0 <= i < |b.expiring| ==> b.expiring[i].node != n
  {
    var all := multiset(b.ordered) + multiset(b.spare);
    assert all[n] == multiset(b.nodes.Keys)[n];
    forall i | 0 <= i < |b.ordered| ensures b.ordered[i] != n {
      assert b.ordered[i] in multiset(b.ordered);
    }
    forall j | 0 <= j < |b.expiring| ensures b.expiring[j].node != n {
      var p := PlaceOfEntry(b, j);
    }
  }

  /** One more spare node, with a number not used before. */
  function WithSpare(b: Book, blank: Node): Book {
    b.(nodes := b.nodes[b.nextNode := blank], spare := b.spare + [b.nextNode], nextNode := b.nextNode + 1)
  }

  lemma WithSpareOk(b: Book, blank: Node)
    requires b.Ok()
    ensures WithSpare(b, blank).Ok() && WithSpare(b, blank).Waiters() == b.Waiters()
  {
    WithSpareBalanced(b, blank);
    WithSpareNodes(b, blank);
    WithSpareEntries(b, blank);
  }

  lemma WithSpareBalanced(b: Book, blank: Node)
    requires b.Balanced()
    ensures WithSpare(b, blank).Balanced()
  {
    var c := WithSpare(b, blank);
    assert c.nodes.Keys == b.nodes.Keys + {b.nextNode};
    assert multiset(c.nodes.Keys) == multiset(b.nodes.Keys) + multiset{b.nextNode};
  }

  lemma WithSpareNodes(b: Book, blank: Node)
    requires b.NodesOk() && b.Balanced()
    ensures WithSpare(b, blank).NodesOk() && WithSpare(b, blank).Waiters() == b.Waiters()
  {
  }

  lemma WithSpareEntries(b: Book, blank: Node)
    requires b.EntriesOk() && b.Balanced()
    ensures WithSpare(b, blank).EntriesOk()
  {
    var c := WithSpare(b, blank);
    forall i | 0 <= i < |c.expiring|
      ensures c.EntryOk(c.expiring[i])
    {
      assert b.EntryOk(b.expiring[i]);
    }
  }

  /** The first spare node, filled, at the end of the arrival list and in its place in the multimap. */
  function Enqueued(b: Book, w: Waiter): Book
    requires b.spare != [] && SortedEntries(b.expiring)
  {
    var n := b.spare[0];
    var k := UpperBound(b.expiring, w.expiresAt);
    b.(nodes := b.nodes[n := Node(w.executor, w.request, n, b.nextEntry)],
       ordered := b.ordered + [n],
       spare := b.spare[1..],
       expiring := InsertAt(b.expiring, k, Entry(w.expiresAt, b.nextEntry, n)),
       nextEntry := b.nextEntry + 1,
       due := b.due[n := w.expiresAt])
  }

  lemma EnqueuedOk(b: Book, w: Waiter)
    requires b.Ok() && b.spare != []
    ensures Enqueued(b, w).Ok() && Enqueued(b, w).Waiters() == b.Waiters() + [w]
  {
    EnqueuedNodes(b, w);
    EnqueuedEntries(b, w);
    EnqueuedSorted(b, w);
    EnqueuedBalanced(b, w);
  }

  lemma EnqueuedNodes(b: Book, w: Waiter)
    requires b.Ok() && b.spare != []
    ensures Enqueued(b, w).NodesOk() && Enqueued(b, w).Waiters() == b.Waiters() + [w]
  {
    SpareIsApart(b, b.spare[0]);
  }

  lemma EnqueuedEntries(b: Book, w: Waiter)
    requires b.Ok() && b.spare != []
    ensures Enqueued(b, w).EntriesOk()
  {
    var c := Enqueued(b, w);
    var k := UpperBound(b.expiring, w.expiresAt);
    SpareIsApart(b, b.spare[0]);
    forall i | 0 <= i < |c.expiring| ensures c.EntryOk(c.expiring[i]) {
      assert i < k ==> b.EntryOk(b.expiring[i]);
      assert i > k ==> b.EntryOk(b.expiring[i - 1]);
    }
  }

  lemma EnqueuedBalanced(b: Book, w: Waiter)
    requires b.Ok() && b.spare != []
    ensures Enqueued(b, w).SameNodes() && Enqueued(b, w).Balanced()
  {
    var c := Enqueued(b, w);
    var n := b.spare[0];
    var k := UpperBound(b.expiring, w.expiresAt);
    SpareIsApart(b, n);
    InsertNodes(b.expiring, k, c.expiring[k]);
    assert b.spare == [n] + b.spare[1..];
    assert c.nodes.Keys == b.nodes.Keys;
  }

  lemma EnqueuedSorted(b: Book, w: Waiter)
    requires b.Ok() && b.spare != []
    ensures SortedEntries(Enqueued(b, w).expiring)
  {
    var es := Enqueued(b, w).expiring;
    var k := UpperBound(b.expiring, w.expiresAt);
    forall i, j | 0 <= i < j < |es| ensures Before(es[i], es[j]) {
      if i < k {
        assert b.EntryOk(b.expiring[i]);
      }
    }
  }

  /** The node at place `p` and its entry leave; the node becomes spare. */
  function Dequeued(b: Book, p: nat, k: nat): Book
    requires p < |b.ordered| && k < |b.expiring|
  {
    b.(ordered := b.ordered[..p] + b.ordered[p + 1..],
       spare := [b.ordered[p]] + b.spare,
       expiring := EraseAt(b.expiring, k))
  }

  lemma DequeuedOk(b: Book, p: nat, k: nat)
    requires b.Ok() && p < |b.ordered| && k < |b.expiring| && b.expiring[k].node == b.ordered[p]
    ensures Dequeued(b, p, k).Ok()
    ensures Dequeued(b, p, k).Waiters() == b.Waiters()[..p] + b.Waiters()[p + 1..]
    ensures p == 0 ==> Dequeued(b, p, k).Waiters() == b.Waiters()[1..]
  {
    DequeuedNodes(b, p, k);
    DequeuedEntries(b, p, k);
    DequeuedBalanced(b, p, k);
  }

  lemma DequeuedNodes(b: Book, p: nat, k: nat)
    requires b.NodesOk() && p < |b.ordered| && k < |b.expiring|
    ensures Dequeued(b, p, k).NodesOk()
    ensures Dequeued(b, p, k).Waiters() == b.Waiters()[..p] + b.Waiters()[p + 1..]
  {
    var c := Dequeued(b, p, k);
    assert forall i :: 0 <= i < |c.ordered| ==> c.ordered[i] == b.ordered[if i < p then i else i + 1];
  }

  lemma DequeuedEntries(b: Book, p: nat, k: nat)
    requires b.EntriesOk() && SortedEntries(b.expiring) && p < |b.ordered| && k < |b.expiring|
    ensures Dequeued(b, p, k).EntriesOk() && SortedEntries(Dequeued(b, p, k).expiring)
  {
    var c := Dequeued(b, p, k);
    forall i | 0 <= i < |c.expiring| ensures c.EntryOk(c.expiring[i]) {
      assert b.EntryOk(b.expiring[if i < k then i else i + 1]);
    }
  }

  lemma DequeuedBalanced(b: Book, p: nat, k: nat)
    requires b.SameNodes() && b.Balanced() && p < |b.ordered| && k < |b.expiring| && b.expiring[k].node == b.ordered[p]
    ensures Dequeued(b, p, k).SameNodes() && Dequeued(b, p, k).Balanced()
  {
    EraseNodes(b.expiring, k);
    CutAround(b.ordered, p);
  }

  // Expiry: entries leave from the front of the multimap, their nodes from anywhere in the arrival list.

  lemma {:induction false} PendingSkips(ws: seq<Waiter>, p: nat, t: Ticks)
    requires p < |ws| && ws[p].expiresAt <= t
    ensures Pending(ws[..p] + ws[p + 1..], t) == Pending(ws, t)
  {
    var rest := ws[..p] + ws[p + 1..];
    if p == 0 {
      assert rest == ws[1..];
    } else {
      assert rest[1..] == ws[1..][..p - 1] + ws[1..][p..];
      PendingSkips(ws[1..], p - 1, t);
    }
  }

  lemma PendingAll(ws: seq<Waiter>, t: Ticks)
    requires forall i :: 0 <= i < |ws| ==> ws[i].expiresAt > t
    ensures Pending(ws, t) == ws
  {
  }

  /** When every entry left lies after `t`, so does every waiter left. */
  lemma NobodyExpired(b: Book, t: Ticks)
    requires b.Ok()
    requires forall i :: 0 <= i < |b.expiring| ==> b.expiring[i].at > t
    ensures Pending(b.Waiters(), t) == b.Waiters()
  {
    forall i | 0 <= i < |b.ordered| ensures b.Waiters()[i].expiresAt > t {
      var j := EntryOfNode(b, b.ordered[i]);
      assert b.EntryOk(b.expiring[j]);
    }
    PendingAll(b.Waiters(), t);
  }

  /** One turn of the expiry loop. */
  lemma ExpireHead(b: Book, p: nat, t: Ticks)
    requires b.Ok() && b.expiring != [] && b.expiring[0].at <= t
    requires p < |b.ordered| && b.ordered[p] == b.expiring[0].node
    ensures Dequeued(b, p, 0).Ok() && Dequeued(b, p, 0).expiring == b.expiring[1..]
    ensures b.EntryOk(b.expiring[0]) && b.Waiters()[p].expiresAt == b.expiring[0].at
    ensures multiset(b.Waiters()) == multiset(Dequeued(b, p, 0).Waiters()) + multiset{b.Waiters()[p]}
    ensures Pending(Dequeued(b, p, 0).Waiters(), t) == Pending(b.Waiters(), t)
  {
    DequeuedOk(b, p, 0);
    assert b.EntryOk(b.expiring[0]);
    CutAround(b.Waiters(), p);
    PendingSkips(b.Waiters(), p, t);
  }

  /** The node at place `p` becomes spare; its entry is still in the multimap. */
  function Unlinked(b: Book, p: nat): Book
    requires p < |b.ordered|
  {
    b.(ordered := b.ordered[..p] + b.ordered[p + 1..], spare := [b.ordered[p]] + b.spare)
  }

  /** Part of the way through the expiry loop: the nodes of the first `i` entries are unlinked and posted. */
  ghost predicate Partway(b: Book, i: nat, ws: seq<Waiter>, t: Ticks, posted: seq<Waiter>) {
    && i <= |b.expiring|
    && b.(expiring := b.expiring[i..]).Ok()
    && Pending(b.Waiters(), t) == Pending(ws, t)
    && multiset(posted) + multiset(b.Waiters()) == multiset(ws)
    && |posted| == i
    && forall j :: 0 <= j < i ==> posted[j].expiresAt == b.expiring[j].at
  }

  lemma PartwayStart(b: Book, t: Ticks)
    requires b.Ok()
    ensures Partway(b, 0, b.Waiters(), t, [])
  {
    assert b.(expiring := b.expiring[0..]) == b;
  }

  /** The next entry's node is queued, under the place its back-reference names. */
  lemma PartwayNode(b: Book, i: nat, ws: seq<Waiter>, t: Ticks, posted: seq<Waiter>)
    requires Partway(b, i, ws, t, posted) && i < |b.expiring|
    ensures b.EntryOk(b.expiring[i]) && b.expiring[i].node in b.ordered
    ensures b.nodes[b.expiring[i].node].orderIt == b.expiring[i].node
  {
    var c := b.(expiring := b.expiring[i..]);
    var p := PlaceOfEntry(c, 0);
    assert c.EntryOk(c.expiring[0]);
  }

  lemma PartwayStep(b: Book, i: nat, ws: seq<Waiter>, t: Ticks, posted: seq<Waiter>, p: nat)
    requires Partway(b, i, ws, t, posted) && i < |b.expiring| && b.expiring[i].at <= t
    requires p < |b.ordered| && b.ordered[p] == b.expiring[i].node
    ensures Partway(Unlinked(b, p), i + 1, ws, t, posted + [b.Waiters()[p]])
    ensures b.Waiters()[p].expiresAt == b.expiring[i].at
  {
    var c := b.(expiring := b.expiring[i..]);
    ExpireHead(c, p, t);
    assert Unlinked(b, p).(expiring := b.expiring[i + 1..]) == Dequeued(c, p, 0);
  }

  /** The loop is over: what was posted is what times out. */
  lemma PartwayEnd(b: Book, k: nat, ws: seq<Waiter>, t: Ticks, posted: seq<Waiter>)
    requires SortedEntries(b.expiring) && k == UpperBound(b.expiring, t)
    requires Partway(b, k, ws, t, posted)
    ensures b.(expiring := b.expiring[k..]).Ok()
    ensures b.Waiters() == Pending(ws, t) && TimesOut(ws, t, posted)
  {
    NobodyExpired(b.(expiring := b.expiring[k..]), t);
    forall i, j | 0 <= i < j < |posted| ensures posted[i].expiresAt <= posted[j].expiresAt {
      assert Before(b.expiring[i], b.expiring[j]);
    }
  }

  function IndexOf(ids: seq<NodeId>, n: NodeId): (p: nat)
    requires n in ids
    ensures p < |ids| && ids[p] == n
  {
    if ids[0] == n then 0 else 1 + IndexOf(ids[1..], n)
  }

  class WaitQueue {
    const capacity: nat
    var nodes: map<NodeId, Node>
    var ordered: seq<NodeId>
    var spare: seq<NodeId>
    var expiring: seq<Entry>
    var timers: map<nat, Option<Ticks>>
    var nextNode: nat
    var nextEntry: nat
    ghost var due: map<NodeId, Ticks>

    ghost function Held(): Book
      reads this
    {
      Book(nodes, ordered, spare, expiring, nextNode, nextEntry, due)
    }

    ghost predicate Valid()
      reads this
    {
      Held().Ok() && |expiring| <= capacity
    }

    ghost function State(): Line
      requires Valid()
      reads this
    {
      Line(capacity, Held().Waiters(), timers)
    }

    constructor (capacity: nat)
      ensures Valid() && State() == Line(capacity, [], map[])
    {
      this.capacity := capacity;
      nodes, ordered, spare, expiring := map[], [], [], [];
      timers, nextNode, nextEntry := map[], 0, 0;
      due := map[];
      new;
      assert NodesOf(expiring) == [];
    }

    /** `update_timer`: one wait for the earliest entry, or no timers at all. */
    method UpdateTimer()
      requires Valid()
      modifies this`timers
      ensures Valid() && State() == Rearm(old(State()))
    {
      SizesAgree(Held());
      if expiring == [] {
        timers := map[];
        return;
      }
      HeadIsEarliest(Held());
      var earliest := expiring[0];
      timers := timers[nodes[earliest.node].executor.context := Some(earliest.at)];
    }

    /** Splice the first spare node to the end of the arrival list, fill it, enter it in the multimap. */
    method Enqueue(w: Waiter)
      requires spare != [] && SortedEntries(expiring)
      modifies this`nodes, this`ordered, this`spare, this`expiring, this`nextEntry, this`due
      ensures Held() == Enqueued(old(Held()), w)
    {
      var n := spare[0];
      ordered, spare := ordered + [n], spare[1..];
      nodes := nodes[n := Node(w.executor, w.request, n, nextEntry)];
      due := due[n := w.expiresAt];
      var k := UpperBound(expiring, w.expiresAt);
      expiring := InsertAt(expiring, k, Entry(w.expiresAt, nextEntry, n));
      nextEntry := nextEntry + 1;
    }

    /** There is always a node to use. */
    method Reserve()
      requires Valid()
      modifies this`nodes, this`spare, this`nextNode
      ensures Valid() && State() == old(State()) && spare != []
    {
      if spare == [] {
        var blank := Node(Executor(0, 0), Request(0, AutoRecycle), 0, 0);
        WithSpareOk(Held(), blank);
        nodes, spare, nextNode := nodes[nextNode := blank], spare + [nextNode], nextNode + 1;
      }
    }

    method Push(executor: Executor, wait: Ticks, request: Request, now: Ticks) returns (pushed: bool)
      requires Valid()
      modifies this
      ensures Valid()
      ensures pushed == (|old(State()).waiters| < capacity)
      ensures State() == PushWaiter(old(State()), Waiter(request, executor, Add(now, wait)))
    {
      SizesAgree(Held());
      if |expiring| >= capacity {
        return false;
      }
      Reserve();
      var w := Waiter(request, executor, Add(now, wait));
      EnqueuedOk(Held(), w);
      Enqueue(w);
      SizesAgree(Held());
      assert State() == old(State()).(waiters := old(State()).waiters + [w]);
      UpdateTimer();
      return true;
    }

    /** Take the node at the head of the arrival list and its entry out; the node becomes spare. */
    method Dequeue(k: nat)
      requires ordered != [] && k < |expiring|
      modifies this`ordered, this`spare, this`expiring
      ensures Held() == Dequeued(old(Held()), 0, k)
    {
      expiring := EraseAt(expiring, k);
      spare, ordered := [ordered[0]] + spare, ordered[1..];
    }

    method Pop() returns (r: Option<Waiter>)
      requires Valid()
      modifies this
      ensures Valid()
      ensures r == if old(State()).waiters == [] then None else Some(old(State()).waiters[0])
      ensures State() == PopWaiter(old(State()))
    {
      if ordered == [] {
        return None;
      }
      var n := ordered[0];
      var k := Position(expiring, nodes[n].expiresIt);
      OwnEntry(Held(), 0, k);
      DequeuedOk(Held(), 0, k);
      r := Some(Waiter(nodes[n].request, nodes[n].executor, expiring[k].at));
      Dequeue(k);
      assert State() == old(State()).(waiters := old(State()).waiters[1..]);
      UpdateTimer();
    }

    /** `cancel`: a wait armed for `t` has completed without error. */
    method Expire(t: Ticks) returns (posted: seq<Waiter>)
      requires Valid()
      modifies this
      ensures Valid()
      ensures State() == ExpireWaiters(old(State()), t)
      ensures TimesOut(old(State()).waiters, t, posted)
    {
      posted := Discard(t);
      UpdateTimer();
    }

    /** Post the expired requests and erase their entries; the timers are left as they are. */
    method Discard(t: Ticks) returns (posted: seq<Waiter>)
      requires Valid()
      modifies this`ordered, this`spare, this`expiring
      ensures Valid() && Held().Waiters() == Pending(old(Held()).Waiters(), t)
      ensures TimesOut(old(Held()).Waiters(), t, posted)
    {
      ghost var ws := Held().Waiters();
      var k := UpperBound(expiring, t);
      posted := Withdraw(k, t);
      ghost var left := Held().(expiring := expiring[k..]);
      PartwayEnd(Held(), k, ws, t, posted);
      expiring := expiring[k..];
      assert Held() == left;
    }

    method Unlink(p: nat)
      requires p < |ordered|
      modifies this`ordered, this`spare
      ensures Held() == Unlinked(old(Held()), p)
    {
      spare, ordered := [ordered[p]] + spare, ordered[..p] + ordered[p + 1..];
    }

    /** Post and unlink the nodes of the first `k` entries. */
    method Withdraw(k: nat, t: Ticks) returns (posted: seq<Waiter>)
      requires Held().Ok() && k == UpperBound(expiring, t)
      modifies this`ordered, this`spare
      ensures Partway(Held(), k, old(Held()).Waiters(), t, posted)
    {
      ghost var ws := Held().Waiters();
      posted := [];
      PartwayStart(Held(), t);
      for i := 0 to k
        invariant Partway(Held(), i, ws, t, posted)
      {
        PartwayNode(Held(), i, ws, t, posted);
        var n := expiring[i].node;
        var p := IndexOf(ordered, nodes[n].orderIt);
        PartwayStep(Held(), i, ws, t, posted, p);
        var w := Waiter(nodes[n].request, nodes[n].executor, expiring[i].at);
        assert w == Held().Waiters()[p];
        Unlink(p);
        posted := posted + [w];
      }
    }
  }
}
