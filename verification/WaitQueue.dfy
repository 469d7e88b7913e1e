/**
 The intrusive wait queue: raw next and prev pointers over nodes that callers own, with one ghost
 sequence saying what the pointers mean. Each method is one critical section, counter included.
 */
module WaitQueue {
  import opened Options
  import opened StableSort

  type Waker = nat

  const BATCH := 64

  class WaitNode {
    var waker: Option<Waker>
    var priority: int
    var next: WaitNode?
    var prev: WaitNode?
    var linked: bool

    constructor ()
      ensures waker == None && priority == 0 && next == null && prev == null && !linked
    {
      waker, priority, next, prev, linked := None, 0, null, null, false;
    }
  }

  ghost function NodeAt(s: seq<WaitNode>, i: int): WaitNode? {
    if 0 <= i < |s| then s[i] else null
  }

  /** Everything about a node but its links. */
  twostate predicate SamePayload(n: WaitNode)
    reads n
  {
    n.waker == old(n.waker) && n.priority == old(n.priority) && n.linked == old(n.linked)
  }

  /** Nodes with their priorities, as the items of a stable sort. */
  ghost function View(s: seq<WaitNode>): (v: seq<Item<WaitNode>>)
    reads s`priority
    ensures |v| == |s|
  {
    if s == [] then [] else [Item(s[0], s[0].priority)] + View(s[1..])
  }

  /** The waker slots of a sequence of nodes. */
  ghost function Slots(s: seq<WaitNode>): (ws: seq<Option<Waker>>)
    reads s`waker
    ensures |ws| == |s|
  {
    if s == [] then [] else [s[0].waker] + Slots(s[1..])
  }

  lemma {:induction false} ViewAt(s: seq<WaitNode>, i: nat)
    requires i < |s|
    ensures View(s)[i] == Item(s[i], s[i].priority)
  {
    if i > 0 {
      ViewAt(s[1..], i - 1);
    }
  }

  lemma {:induction false} ViewConcat(a: seq<WaitNode>, b: seq<WaitNode>)
    ensures View(a + b) == View(a) + View(b)
  {
    if a == [] {
      assert a + b == b;
    } else {
      ViewConcat(a[1..], b);
      assert (a + b)[1..] == a[1..] + b;
    }
  }

  lemma ViewSplit(s: seq<WaitNode>, k: nat)
    requires k <= |s|
    ensures View(s[..k]) == View(s)[..k] && View(s[k..]) == View(s)[k..]
  {
    ViewConcat(s[..k], s[k..]);
    assert s == s[..k] + s[k..];
  }

  lemma TailViews(s: seq<WaitNode>)
    requires s != []
    ensures View(s[1..]) == View(s)[1..] == RemoveAt(View(s), 0)
    ensures Slots(s[1..]) == Slots(s)[1..] && Slots(s)[0] == s[0].waker
  {
  }

  /** The wakers present, in order. */
  function Present(ws: seq<Option<Waker>>): (r: seq<Waker>)
    ensures |r| <= |ws|
  {
    if ws == [] then []
    else
      var last := ws[|ws| - 1];
      Present(ws[..|ws| - 1]) + if last.Some? then [last.value] else []
  }

  /** A node without a waker contributes nothing, and no other node is left out. */
  lemma PresentOne(o: Option<Waker>)
    ensures Present([o]) == if o.Some? then [o.value] else []
  {
    assert [o][..0] == [];
  }

  lemma {:induction false} PresentConcat(a: seq<Option<Waker>>, b: seq<Option<Waker>>)
    ensures Present(a + b) == Present(a) + Present(b)
    decreases |b|
  {
    if b == [] {
      assert a + b == a;
    } else {
      PresentConcat(a, b[..|b| - 1]);
      assert (a + b)[..|a + b| - 1] == a + b[..|b| - 1];
    }
  }

  function Take<T>(s: seq<T>, n: nat): seq<T> {
    if |s| <= n then s else s[..n]
  }

  lemma PresentNone()
    ensures Take(Present([]), BATCH) == []
  {
  }

  /** The collector has room for 64 wakers and drops the others. */
  function Pushed(wakers: seq<Waker>, w: Waker): seq<Waker> {
    if |wakers| >= BATCH then wakers else wakers + [w]
  }

  lemma Collects(ws: seq<Option<Waker>>, n: nat)
    requires n < |ws|
    ensures var before, after := Take(Present(ws[..n]), BATCH), Take(Present(ws[..n + 1]), BATCH);
      after == if ws[n].Some? then Pushed(before, ws[n].value) else before
  {
    assert ws[..n + 1][..n] == ws[..n];
    var s := Present(ws[..n]);
    assert ws[n].Some? && |s| >= BATCH ==> (s + [ws[n].value])[..BATCH] == s[..BATCH];
  }

  lemma {:induction false} AllPresent(ws: seq<Option<Waker>>)
    requires forall i :: 0 <= i < |ws| ==> ws[i].Some?
    ensures |Present(ws)| == |ws|
    ensures forall i :: 0 <= i < |ws| ==> Present(ws)[i] == ws[i].value
  {
    if ws != [] {
      AllPresent(ws[..|ws| - 1]);
    }
  }

  /**
   With a waker in every node, waking all fires the waker of each of them exactly when at most
   64 are waiting; otherwise of just the first 64, while the rest are unlinked all the same.
   */
  lemma AllWokenIff(ws: seq<Option<Waker>>)
    requires forall i :: 0 <= i < |ws| ==> ws[i].Some?
    ensures var fired := Take(Present(ws), 64);
      && (forall i :: 0 <= i < |ws| && i < 64 ==> i < |fired| && fired[i] == ws[i].value)
      && |fired| == (if |ws| <= 64 then |ws| else 64)
  {
    AllPresent(ws);
  }

  lemma {:induction false} PositionIs<T>(v: seq<Item<T>>, key: int, k: nat)
    requires k <= |v|
    requires k > 0 ==> v[k - 1].key >= key
    requires forall i :: k <= i < |v| ==> v[i].key < key
    ensures Position(v, key) == k
    decreases |v|
  {
    if k < |v| {
      PositionIs(v[..|v| - 1], key, k);
    }
  }

  /** s with a node put in at position k. */
  ghost function Placed(s: seq<WaitNode>, node: WaitNode, k: nat): seq<WaitNode>
    requires k <= |s|
  {
    s[..k] + [node] + s[k..]
  }

  lemma PlacedNodes(s: seq<WaitNode>, node: WaitNode, k: nat)
    requires k <= |s|
    ensures |Placed(s, node, k)| == |s| + 1
    ensures forall i :: 0 <= i <= |s| ==> Placed(s, node, k)[i] == node || Placed(s, node, k)[i] in s
  {
    assert s == s[..k] + s[k..];
  }

  lemma PlacedLast(s: seq<WaitNode>, node: WaitNode)
    ensures Placed(s, node, |s|) == s + [node]
  {
  }

  lemma PlacedSwap(s: seq<WaitNode>, node: WaitNode, k: nat)
    requires 0 < k <= |s|
    ensures Placed(s, node, k)[k] == node && Placed(s, node, k)[k - 1] == s[k - 1]
    ensures k > 1 ==> Placed(s, node, k)[k - 2] == s[k - 2]
    ensures Placed(s, node, k)[k - 1 := node][k := s[k - 1]] == Placed(s, node, k - 1)
  {
  }

  /** Every item from k on has a key below the given one. */
  ghost predicate AllBelow(v: seq<Item<WaitNode>>, k: nat, key: int) {
    forall i :: k <= i < |v| ==> v[i].key < key
  }

  lemma NoneBelow(v: seq<Item<WaitNode>>, key: int)
    ensures AllBelow(v, |v|, key)
  {
  }

  /** A predecessor of lower priority is one more node to go behind. */
  lemma Overtake(s: seq<WaitNode>, cursor: WaitNode, k: nat, key: int)
    requires k <= |s| && cursor == NodeAt(s, k - 1) && AllBelow(View(s), k, key) && cursor.priority < key
    ensures k > 0 && cursor == s[k - 1] && AllBelow(View(s), k - 1, key)
  {
    ViewAt(s, k - 1);
  }

  /** The loop ends at the front or behind a node of at least the priority. */
  lemma InPlace(s: seq<WaitNode>, k: nat, key: int)
    requires k <= |s| && (NodeAt(s, k - 1) != null ==> NodeAt(s, k - 1).priority >= key)
    ensures k > 0 ==> View(s)[k - 1].key >= key
  {
    if k > 0 {
      ViewAt(s, k - 1);
    }
  }

  lemma InsertView(s: seq<WaitNode>, node: WaitNode, k: nat)
    requires k == Position(View(s), node.priority)
    ensures View(Placed(s, node, k)) == Insert(View(s), Item(node, node.priority))
  {
    ViewSplit(s, k);
    ViewConcat(s[..k] + [node], s[k..]);
    ViewConcat(s[..k], [node]);
    assert [node][1..] == [];
  }

  lemma RemoveView(s: seq<WaitNode>, i: nat)
    requires i < |s|
    ensures View(RemoveAt(s, i)) == RemoveAt(View(s), i)
  {
    ViewSplit(s, i);
    ViewSplit(s, i + 1);
    ViewConcat(s[..i], s[i + 1..]);
  }

  lemma NothingWaits()
    ensures IsStableSort([], View([]))
  {
  }

  /** A node that has left the queue by being woken. */
  ghost predicate Departed(n: WaitNode)
    reads n
  {
    !n.linked && n.next == null && n.prev == null && n.waker == None
  }

  /** Only queued nodes are among the arrivals. */
  lemma ArrivedIsQueued(a: seq<Item<WaitNode>>, s: seq<WaitNode>)
    requires IsStableSort(a, View(s))
    ensures forall i :: 0 <= i < |a| ==> a[i].val in s
  {
    Queued(a, View(s));
    forall i | 0 <= i < |a| ensures a[i].val in s {
      var k :| 0 <= k < |s| && View(s)[k] == a[i];
      ViewAt(s, k);
    }
  }

  class WaitQueue {
    var head: WaitNode?
    var tail: WaitNode?
    var len: nat
    ghost var nodes: seq<WaitNode>
    /** The nodes still waiting, with their priorities, in the order they were enqueued. */
    ghost var arrivals: seq<Item<WaitNode>>
    /** What firing wakers has done: every waker fired so far, in order. */
    var fired: seq<Waker>

    /** The pointers form a doubly linked list through s, from head to tail. */
    ghost predicate Linked(s: seq<WaitNode>)
      reads `head, `tail, s`next, s`prev
    {
      && Distinct(s)
      && head == NodeAt(s, 0) && tail == NodeAt(s, |s| - 1)
      && (forall i {:trigger s[i].next} :: 0 <= i < |s| ==> s[i].next == NodeAt(s, i + 1))
      && (forall i {:trigger s[i].prev} :: 0 <= i < |s| ==> s[i].prev == NodeAt(s, i - 1))
    }

    ghost predicate Valid()
      reads this, nodes
    {
      && Linked(nodes)
      && (forall i :: 0 <= i < |nodes| ==> nodes[i].linked)
      && DistinctItems(arrivals) && IsStableSort(arrivals, View(nodes))
      && len == |nodes|
    }

    constructor ()
      ensures Valid() && nodes == [] && arrivals == [] && fired == []
    {
      head, tail, len, nodes, arrivals, fired := null, null, 0, [], [], [];
    }

    /**
     Link a node behind all nodes of at least its priority: append it, then swap it forward past
     every node of lower priority.
     */
    method Enqueue(node: WaitNode)
      requires Valid() && node !in nodes && !node.linked
      modifies this, nodes, node
      ensures Valid() && node.linked
      ensures View(nodes) == Insert(old(View(nodes)), Item(node, node.priority))
      ensures nodes == Placed(old(nodes), node, Position(old(View(nodes)), node.priority))
      ensures arrivals == old(arrivals) + [Item(node, node.priority)] && fired == old(fired)
      ensures node.waker == old(node.waker) && node.priority == old(node.priority)
      ensures forall i :: 0 <= i < |old(nodes)| ==> SamePayload(old(nodes)[i])
    {
      hide Placed, Position, StableSort.Insert, IsStableSort, Linked, View;
      ghost var v, x := View(nodes), Item(node, node.priority);
      ArrivedIsQueued(arrivals, nodes);
      Append(node);
      ghost var k := SortForward(node, v);
      PositionIs(v, node.priority, k);
      InsertView(nodes, node, k);
      InsertIsStable(arrivals, v, x);
      PlacedNodes(nodes, node, k);
      nodes := Placed(nodes, node, k);
      len := len + 1;
      arrivals := arrivals + [x];
    }

    /** The swap loop: node, appended to the old nodes, moves forward to its place k. */
    method SortForward(node: WaitNode, ghost v: seq<Item<WaitNode>>) returns (ghost k: nat)
      requires Linked(Placed(nodes, node, |nodes|)) && v == View(nodes)
      modifies `head, `tail, nodes`next, nodes`prev, node`next, node`prev
      ensures k <= |nodes| && Linked(Placed(nodes, node, k))
      ensures AllBelow(v, k, node.priority) && (k > 0 ==> v[k - 1].key >= node.priority)
    {
      LastLink(nodes, node);
      hide Placed, View, Position, StableSort.Insert, Linked, NodeAt, AllBelow;
      k := |nodes|;
      NoneBelow(v, node.priority);
      var cursor := node.prev;
      while cursor != null && cursor.priority < node.priority
        invariant 0 <= k <= |nodes| && Linked(Placed(nodes, node, k))
        invariant v == View(nodes) && AllBelow(v, k, node.priority)
        invariant cursor == NodeAt(nodes, k - 1)
        decreases k
      {
        Overtake(nodes, cursor, k, node.priority);
        StepForward(node, cursor, k);
        k := k - 1;
        cursor := node.prev;
      }
      InPlace(nodes, k, node.priority);
    }

    method StepForward(node: WaitNode, cursor: WaitNode, ghost k: nat)
      requires 0 < k <= |nodes| && Linked(Placed(nodes, node, k)) && cursor == nodes[k - 1]
      modifies `head, `tail, nodes`next, nodes`prev, node`next, node`prev
      ensures Linked(Placed(nodes, node, k - 1))
      ensures node.prev == NodeAt(nodes, k - 2)
    {
      hide Placed;
      ghost var s := Placed(nodes, node, k);
      PlacedNodes(nodes, node, k);
      PlacedSwap(nodes, node, k);
      ghost var r := SwapForward(node, cursor, s, k);
      assert r[k - 1].prev == NodeAt(r, k - 2);
    }

    /** Put a node at the tail. */
    method Append(node: WaitNode)
      requires Linked(nodes) && node !in nodes
      modifies `head, `tail, nodes`next, nodes`prev, node`next, node`prev, node`linked
      ensures Linked(Placed(nodes, node, |nodes|)) && node.linked
    {
      node.next := null;
      node.prev := tail;
      node.linked := true;
      if tail == null {
        head := node;
      } else {
        tail.next := node;
      }
      tail := node;
      PlacedLast(nodes, node);
      assert Linked(nodes + [node]);
    }

    /** Swap a node with its predecessor. */
    method SwapForward(node: WaitNode, cursor: WaitNode, ghost s: seq<WaitNode>, ghost k: nat)
      returns (ghost r: seq<WaitNode>)
      requires Linked(s) && 0 < k < |s| && s[k] == node && s[k - 1] == cursor
      modifies `head, `tail, s`next, s`prev
      ensures r == s[k - 1 := node][k := cursor] && Linked(r)
    {
      assert node != cursor && cursor.prev == NodeAt(s, k - 2) && node.next == NodeAt(s, k + 1);
      node.prev := cursor.prev;
      cursor.next := node.next;
      node.next := cursor;
      cursor.prev := node;
      if node.prev != null {
        node.prev.next := node;
      } else {
        head := node;
      }
      if cursor.next != null {
        cursor.next.prev := cursor;
      } else {
        tail := cursor;
      }
      r := s[k - 1 := node][k := cursor];
      Swapped(s, r, k);
    }

    /** Unlink a node from anywhere in the queue; a node that is not linked is left alone. */
    method Remove(node: WaitNode) returns (ghost i: nat, ghost j: nat)
      requires Valid() && (node.linked ==> node in nodes)
      modifies this, nodes, node
      ensures Valid() && fired == old(fired)
      ensures !old(node.linked) ==> nodes == old(nodes) && arrivals == old(arrivals) && unchanged(node)
      ensures old(node.linked) ==> i < |old(nodes)| && old(nodes)[i] == node && nodes == RemoveAt(old(nodes), i)
      ensures old(node.linked) ==> View(nodes) == RemoveAt(old(View(nodes)), i)
      ensures old(node.linked) ==> j < |old(arrivals)| && old(arrivals)[j].val == node
      ensures old(node.linked) ==> arrivals == RemoveAt(old(arrivals), j)
      ensures !node.linked && (old(node.linked) ==> node.next == null && node.prev == null)
      ensures node.waker == old(node.waker) && node.priority == old(node.priority)
      ensures forall n <- nodes :: SamePayload(n)
    {
      hide IsStableSort, Linked, View, RemoveAt, Distinct, DistinctItems;
      i, j := 0, 0;
      if !node.linked {
        return;
      }
      i :| 0 <= i < |nodes| && nodes[i] == node;
      ghost var v := View(nodes);
      ViewDistinct(nodes);
      ViewAt(nodes, i);
      j := Departs(arrivals, v, i);
      RemoveView(nodes, i);
      ghost var rest := RemoveAt(nodes, i);
      assert View(rest) == RemoveAt(v, i);
      Splice(node, i);
      node.next := null;
      node.prev := null;
      node.linked := false;
      assert View(rest) == RemoveAt(v, i);
      nodes := rest;
      arrivals := RemoveAt(arrivals, j);
      len := len - 1;
      forall i | 0 <= i < |nodes| ensures nodes[i].linked {
        assert nodes[i] in nodes;
      }
    }

    /** Route the list around the i-th node. */
    method Splice(node: WaitNode, ghost i: nat)
      requires Linked(nodes) && i < |nodes| && nodes[i] == node
      modifies `head, `tail, nodes`next, nodes`prev
      ensures Linked(RemoveAt(nodes, i))
      ensures |nodes| == |RemoveAt(nodes, i)| + 1 && node !in RemoveAt(nodes, i)
      ensures forall n <- RemoveAt(nodes, i) :: n in nodes
    {
      assert node.prev == NodeAt(nodes, i - 1) && node.next == NodeAt(nodes, i + 1);
      if node.prev != null {
        node.prev.next := node.next;
      } else {
        head := node.next;
      }
      if node.next != null {
        node.next.prev := node.prev;
      } else {
        tail := node.prev;
      }
      Spliced(nodes, i);
    }

    /** Wake the front node, if there is one. */
    method WakeOne() returns (woken: bool, ghost j: nat)
      requires Valid()
      modifies this, nodes
      ensures Valid()
      ensures old(nodes) == [] ==> !woken && nodes == [] && fired == old(fired)
      ensures old(nodes) != [] ==> FrontWoken(old(nodes), old(View(nodes)), old(Slots(nodes)), old(arrivals), j, woken)
      ensures fired == if woken then old(fired) + [old(Slots(nodes))[0].value] else old(fired)
    {
      HeadOf(nodes);
      j := 0;
      if head == null {
        return false, j;
      }
      woken, j := WakeFront();
    }

    /**
     The front node, the oldest of the highest priority still waiting, has left the queue and the
     others have not; it was woken exactly if it had a waker.
     */
    ghost predicate FrontWoken(was: seq<WaitNode>, v: seq<Item<WaitNode>>, slots: seq<Option<Waker>>,
                               arrived: seq<Item<WaitNode>>, j: nat, woken: bool)
      requires |was| == |v| == |slots| > 0
      reads this, was
    {
      && nodes == was[1..] && Departed(was[0])
      && IsOldestOfHighest(arrived, j, v[0]) && arrivals == RemoveAt(arrived, j)
      && (woken <==> slots[0].Some?)
      && View(nodes) == v[1..] && Slots(nodes) == slots[1..]
    }

    method WakeFront() returns (woken: bool, ghost j: nat)
      requires Valid() && nodes != []
      modifies this, nodes
      ensures Valid()
      ensures FrontWoken(old(nodes), old(View(nodes)), old(Slots(nodes)), old(arrivals), j, woken)
      ensures fired == if woken then old(fired) + [old(Slots(nodes))[0].value] else old(fired)
    {
      hide IsStableSort, Linked, View, Slots, RemoveAt, Distinct, DistinctItems, IsOldestOfHighest;
      HeadOf(nodes);
      ghost var rest, v := nodes[1..], View(nodes);
      ViewDistinct(nodes);
      TailViews(nodes);
      j := Departs(arrivals, v, 0);
      FrontIsOldest(arrivals, v, j);
      var node := head;
      var waker := TakeFront(node);
      len := len - 1;
      nodes := rest;
      arrivals := RemoveAt(arrivals, j);
      forall i | 0 <= i < |nodes| ensures nodes[i].linked {
        assert nodes[i] in nodes;
      }
      woken := waker.Some?;
      if woken {
        fired := fired + [waker.value];
      }
    }

    /**
     Unlink every node, collecting at most 64 wakers, then fire those collected. The nodes behind
     lose their wakers unfired.
     */
    method WakeAll()
      requires Valid()
      modifies this, nodes
      ensures Valid() && nodes == [] && arrivals == []
      ensures forall n <- old(nodes) :: Departed(n)
      ensures fired == old(fired) + Take(Present(old(Slots(nodes))), 64)
    {
      hide IsStableSort, Linked, Present, Slots, View, Departed;
      NothingWaits();
      var wakers := TakeAll();
      len := 0;
      arrivals := [];
      fired := fired + wakers;
    }

    /** The draining loop. */
    method TakeAll() returns (wakers: seq<Waker>)
      requires Linked(nodes)
      modifies `head, `tail, `nodes, nodes
      ensures Linked(nodes) && nodes == []
      ensures forall n <- old(nodes) :: Departed(n)
      ensures wakers == Take(Present(old(Slots(nodes))), BATCH)
    {
      hide Linked, Present, Slots, View, Departed, Take, Distinct, Pushed;
      ghost var all, slots, n := nodes, Slots(nodes), 0;
      HeadOf(nodes);
      PresentNone();
      wakers := [];
      while head != null
        invariant n <= |all| && nodes == all[n..] && Linked(nodes)
        invariant head == NodeAt(nodes, 0)
        invariant Slots(nodes) == slots[n..] && |slots| == |all|
        invariant forall m <- all[..n] :: Departed(m) && m !in nodes
        invariant wakers == Take(Present(slots[..n]), BATCH)
        decreases |nodes|
      {
        var node := head;
        TailViews(nodes);
        var waker := TakeFront(node);
        Collects(slots, n);
        if waker.Some? {
          wakers := Pushed(wakers, waker.value);
        }
        assert all[..n + 1] == all[..n] + [node];
        n, nodes := n + 1, nodes[1..];
        HeadOf(nodes);
      }
      assert slots[..n] == slots && all[..n] == all;
    }

    /** Route the list around its front node, take the node's waker and clear its links. */
    method TakeFront(node: WaitNode) returns (waker: Option<Waker>)
      requires Linked(nodes) && nodes != [] && node == head
      modifies `head, `tail, nodes`next, nodes`prev, node`waker, node`linked
      ensures node == nodes[0] && Linked(nodes[1..]) && Departed(node) && waker == old(node.waker)
      ensures node !in nodes[1..] && (forall n <- nodes[1..] :: n in nodes)
    {
      Unhook();
      hide Linked;
      waker := node.waker;
      node.waker := None;
      node.next := null;
      node.prev := null;
      node.linked := false;
    }

    method Unhook()
      requires Linked(nodes) && nodes != [] && head != null
      modifies `head, `tail, nodes`next, nodes`prev
      ensures old(head) == nodes[0] && Linked(nodes[1..])
      ensures nodes[0] !in nodes[1..] && (forall n <- nodes[1..] :: n in nodes)
    {
      head := head.next;
      if head == null {
        tail := null;
      } else {
        head.prev := null;
      }
      Spliced(nodes, 0);
      assert RemoveAt(nodes, 0) == nodes[1..];
    }

    lemma HeadOf(s: seq<WaitNode>)
      requires Linked(s)
      ensures head == NodeAt(s, 0) && Distinct(s)
    {
    }

    /** Two links rewritten around position i, the others as in s: the list now leaves it out. */
    lemma Spliced(s: seq<WaitNode>, i: nat)
      requires i < |s| && Distinct(s)
      requires head == (if i == 0 then NodeAt(s, 1) else s[0])
      requires tail == (if i == |s| - 1 then NodeAt(s, i - 1) else s[|s| - 1])
      requires forall k {:trigger s[k].next} :: 0 <= k < |s| && k != i ==>
        s[k].next == NodeAt(s, if k == i - 1 then i + 1 else k + 1)
      requires forall k {:trigger s[k].prev} :: 0 <= k < |s| && k != i ==>
        s[k].prev == NodeAt(s, if k == i + 1 then i - 1 else k - 1)
      ensures Linked(RemoveAt(s, i))
    {
      var r := RemoveAt(s, i);
      assert forall k :: 0 <= k < |r| ==> r[k] == s[if k < i then k else k + 1];
    }

    lemma ViewDistinct(s: seq<WaitNode>)
      requires Linked(s)
      ensures DistinctItems(View(s))
    {
      forall i | 0 <= i < |s| ensures View(s)[i].val == s[i] {
        ViewAt(s, i);
      }
      hide View;
    }

    lemma LastLink(s: seq<WaitNode>, node: WaitNode)
      requires Linked(Placed(s, node, |s|))
      ensures node.prev == NodeAt(s, |s| - 1)
    {
      PlacedLast(s, node);
    }

    /** Four links rewritten around positions k - 1 and k, the others as in s: the list is now r. */
    lemma Swapped(s: seq<WaitNode>, r: seq<WaitNode>, k: nat)
      requires 0 < k < |s| && Distinct(s) && r == s[k - 1 := s[k]][k := s[k - 1]]
      requires s[k].prev == NodeAt(s, k - 2) && s[k].next == s[k - 1]
      requires s[k - 1].prev == s[k] && s[k - 1].next == NodeAt(s, k + 1)
      requires head == NodeAt(r, 0) && tail == NodeAt(r, |r| - 1)
      requires forall i {:trigger s[i].next} :: 0 <= i < |s| && i != k - 1 && i != k ==>
        s[i].next == if i == k - 2 then s[k] else NodeAt(s, i + 1)
      requires forall i {:trigger s[i].prev} :: 0 <= i < |s| && i != k - 1 && i != k ==>
        s[i].prev == if i == k + 1 then s[k - 1] else NodeAt(s, i - 1)
      ensures Linked(r)
    {
    }
  }
}
