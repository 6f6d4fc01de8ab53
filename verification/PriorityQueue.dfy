/** The hand-written priority queue that holds the CPU and disk queues of the simulator.
    `Push` is the queue discipline on sequences; `PQueue` is the linked list that carries it out. */
module PriorityQueue {

  datatype Item<+T> = Item(val: T, priority: int)

  // ---------- The discipline on sequences ----------

  /** First index at or after `k` whose priority is not below `p`. */
  function SlotFrom<T>(q: seq<Item<T>>, p: int, k: nat): (slot: nat)
    requires k <= |q|
    ensures k <= slot <= |q|
    ensures forall j :: k <= j < slot ==> q[j].priority < p
    ensures slot < |q| ==> q[slot].priority >= p
    decreases |q| - k
  {
    if k == |q| || q[k].priority >= p then k else SlotFrom(q, p, k + 1)
  }

  /** Where a new element goes: before a head of larger priority number, otherwise behind the head and
      behind the whole run of strictly smaller priorities that follows it. */
  function Slot<T>(q: seq<Item<T>>, p: int): (slot: nat)
    ensures slot <= |q|
  {
    if q == [] || q[0].priority > p then 0 else SlotFrom(q, p, 1)
  }

  function Inserted<T>(q: seq<T>, s: nat, e: T): (r: seq<T>)
    requires s <= |q|
    ensures |r| == |q| + 1
    ensures forall k :: 0 <= k < |r| ==> r[k] == if k < s then q[k] else if k == s then e else q[k - 1]
  {
    q[..s] + [e] + q[s..]
  }

  function Push<T>(q: seq<Item<T>>, e: Item<T>): seq<Item<T>> {
    var s := Slot(q, e.priority);
    Inserted(q, s, e)
  }

  ghost predicate Sorted<T>(q: seq<Item<T>>) {
    forall i, j :: 0 <= i < j < |q| ==> q[i].priority <= q[j].priority
  }

  lemma PrioritiesBeforeSlot<T>(q: seq<Item<T>>, p: int, j: nat)
    requires j < Slot(q, p)
    ensures q[j].priority <= p
  {
  }

  lemma PrioritiesAfterSlot<T>(q: seq<Item<T>>, p: int, j: nat)
    requires Sorted(q) && Slot(q, p) <= j < |q|
    ensures p <= q[j].priority
  {
    assert q[Slot(q, p)].priority <= q[j].priority;
  }

  lemma PushKeepsSorted<T>(q: seq<Item<T>>, e: Item<T>)
    requires Sorted(q)
    ensures Sorted(Push(q, e))
  {
    var s := Slot(q, e.priority);
    var r := Push(q, e);
    hide SlotFrom;
    forall i, j | 0 <= i < j < |r| ensures r[i].priority <= r[j].priority {
      assert r[i] == if i < s then q[i] else if i == s then e else q[i - 1];
      assert r[j] == if j < s then q[j] else if j == s then e else q[j - 1];
      if i < s && j == s {
        PrioritiesBeforeSlot(q, e.priority, i);
      } else if i == s {
        PrioritiesAfterSlot(q, e.priority, j - 1);
      }
    }
  }

  /** A push onto a queue whose head is not behind the new element leaves the head where it is. */
  lemma PushKeepsHead<T>(q: seq<Item<T>>, e: Item<T>)
    requires q != [] ==> q[0].priority <= e.priority
    ensures |Push(q, e)| == |q| + 1
    ensures Push(q, e)[0] == if q == [] then e else q[0]
    ensures forall k {:trigger Push(q, e)[k]} :: 1 <= k < |Push(q, e)| ==>
              Push(q, e)[k] == e || (k < |q| && Push(q, e)[k] == q[k]) || (k >= 2 && Push(q, e)[k] == q[k - 1])
  {
  }

  /** Exactly when the queue behaves as the FIFO it is documented to be: the new element is appended
      iff the head is not behind it and everything after the head is strictly before it. */
  lemma AppendsExactlyWhen<T>(q: seq<Item<T>>, p: int)
    ensures Slot(q, p) == |q| <==>
            q == [] || (q[0].priority <= p && forall k :: 1 <= k < |q| ==> q[k].priority < p)
  {
    if q != [] && q[0].priority <= p {
      var s := SlotFrom(q, p, 1);
      if s < |q| { assert q[s].priority >= p; }
    }
  }

  /** The documented FIFO order fails for equal priorities: of two elements pushed one after the other
      behind a head, all of the same priority, the later one is served first. */
  lemma EqualPrioritiesAreReversed<T>(head: T, first: T, second: T, p: int)
    ensures var q := Push(Push(Push([], Item(head, p)), Item(first, p)), Item(second, p));
            q == [Item(head, p), Item(second, p), Item(first, p)]
  {
    var q1 := [Item(head, p)];
    assert Push([], Item(head, p)) == q1;
    assert SlotFrom(q1, p, 1) == 1;
    var q2 := [Item(head, p), Item(first, p)];
    assert Push(q1, Item(first, p)) == q2;
    assert SlotFrom(q2, p, 1) == 1;
  }

  /** The slot depends on the priorities alone. */
  lemma SlotFromDependsOnPriorities<T, U>(q: seq<Item<T>>, r: seq<Item<U>>, p: int, k: nat)
    requires |q| == |r| && k <= |q|
    requires forall j :: 0 <= j < |q| ==> q[j].priority == r[j].priority
    ensures SlotFrom(q, p, k) == SlotFrom(r, p, k)
    decreases |q| - k
  {
    if k < |q| && q[k].priority < p {
      SlotFromDependsOnPriorities(q, r, p, k + 1);
    }
  }

  lemma SlotDependsOnPriorities<T, U>(q: seq<Item<T>>, r: seq<Item<U>>, p: int)
    requires |q| == |r|
    requires forall j :: 0 <= j < |q| ==> q[j].priority == r[j].priority
    ensures Slot(q, p) == Slot(r, p)
  {
    if q != [] && q[0].priority <= p {
      SlotFromDependsOnPriorities(q, r, p, 1);
    }
  }

  /** The position a walk from the head stops at is the slot. */
  lemma SlotIs<T>(q: seq<Item<T>>, p: int, s: nat)
    requires 1 <= s <= |q| && q[0].priority <= p
    requires forall j :: 1 <= j < s ==> q[j].priority < p
    requires s < |q| ==> q[s].priority >= p
    ensures Slot(q, p) == s
  {
  }

  // ---------- The linked list ----------

  class Node<T> {
    const val: T
    const priority: int
    var next: Node?<T>
    ghost const owner: object  // the queue this node was created for

    constructor (val: T, priority: int, ghost owner: object)
      ensures this.val == val && this.priority == priority && this.owner == owner && next == null
    {
      this.val, this.priority, this.owner, this.next := val, priority, owner, null;
    }
  }

  ghost function ItemsOf<T>(nodes: seq<Node<T>>): (q: seq<Item<T>>)
    ensures |q| == |nodes|
    ensures forall i :: 0 <= i < |q| ==> q[i] == Item(nodes[i].val, nodes[i].priority)
  {
    seq(|nodes|, i requires 0 <= i < |nodes| => Item(nodes[i].val, nodes[i].priority))
  }

  lemma ItemsOfInsert<T>(nodes: seq<Node<T>>, s: nat, node: Node<T>)
    requires s <= |nodes|
    ensures var q := ItemsOf(nodes);
            ItemsOf(Inserted(nodes, s, node)) == Inserted(q, s, Item(node.val, node.priority))
  {
  }

  ghost function NodeAt<T>(nodes: seq<Node<T>>, i: nat): Node?<T> {
    if i < |nodes| then nodes[i] else null
  }

  /** A variable of type `pNode*` together with the operations that take its address. */
  class PQueue<T> {
    var head: Node?<T>
    ghost var nodes: seq<Node<T>>  // the chain from head, in order

    ghost predicate Valid()
      reads this, nodes
    {
      && head == NodeAt(nodes, 0)
      && (forall i {:trigger nodes[i].next} :: 0 <= i < |nodes| ==>
            nodes[i].next == NodeAt(nodes, i + 1))
      && (forall i, j :: 0 <= i < j < |nodes| ==> nodes[i] != nodes[j])
      && (forall i :: 0 <= i < |nodes| ==> nodes[i].owner == this)
    }

    ghost function Items(): seq<Item<T>>
      reads this
    {
      ItemsOf(nodes)
    }

    constructor ()
      ensures Valid() && nodes == []
    {
      head, nodes := null, [];
    }

    method IsEmpty() returns (empty: bool)
      requires Valid()
      ensures empty <==> Items() == []
    {
      empty := head == null;
    }

    method SizeQueue() returns (size: nat)
      requires Valid()
      ensures size == |Items()|
    {
      size := 0;
      var start := head;
      while start != null
        invariant size <= |nodes|
        invariant start == NodeAt(nodes, size)
        decreases |nodes| - size
      {
        start := start.next;
        size := size + 1;
      }
    }

    /** `queue = queue->next`: unlink the head (the node is not freed). */
    method Advance()
      requires Valid() && Items() != []
      modifies this
      ensures Valid() && nodes == old(nodes)[1..]
    {
      head := head.next;
      nodes := nodes[1..];
    }

    method PopQueue()
      requires Valid() && Items() != []
      modifies this
      ensures Valid() && nodes == old(nodes)[1..]
    {
      if head.next == null {
        head := null;
      } else {
        head := head.next;
      }
      nodes := nodes[1..];
    }

    method PushQueue(val: T, priority: int) returns (ghost node: Node<T>)
      requires Valid()
      modifies this, nodes
      ensures Valid() && fresh(node) && node.val == val && node.priority == priority
      ensures nodes == Inserted(old(nodes), Slot(old(Items()), priority), node)
      ensures Items() == Push(old(Items()), Item(val, priority))
    {
      var n := new Node(val, priority, this);
      node := n;
      ghost var items := Items();
      if head == null {
        head, nodes := n, [n];
        return;
      }
      if head.priority > priority {
        LinkFirst(n);
        return;
      }
      var start := head;
      ghost var k := 0;
      while start.next != null && start.next.priority < priority
        invariant 0 <= k < |nodes| && start == nodes[k]
        invariant forall j :: 1 <= j <= k ==> items[j].priority < priority
        decreases |nodes| - k
      {
        start := start.next;
        k := k + 1;
      }
      SlotIs(items, priority, k + 1);
      ItemsOfInsert(nodes, k + 1, n);
      LinkAfter(start, k, n);
    }

    /** Puts a detached node in front of a non-empty queue. */
    method LinkFirst(node: Node<T>)
      requires Valid() && node !in nodes && node.owner == this
      modifies this, node`next
      ensures Valid() && Items() == Inserted(old(Items()), 0, Item(node.val, node.priority))
      ensures nodes == Inserted(old(nodes), 0, node)
    {
      ItemsOfInsert(nodes, 0, node);
      node.next := head;
      head, nodes := node, Inserted(nodes, 0, node);
    }

    /** Puts a detached node behind `start`, the node at index `k`. */
    method LinkAfter(start: Node<T>, ghost k: nat, node: Node<T>)
      requires Valid() && k < |nodes| && start == nodes[k]
      requires node !in nodes && node.owner == this
      modifies this`nodes, start`next, node`next
      ensures Valid()
      ensures nodes == Inserted(old(nodes), k + 1, node)
    {
      ghost var before := nodes;
      node.next := start.next;
      start.next := node;
      nodes := Inserted(before, k + 1, node);
      forall i | 0 <= i < |nodes| ensures nodes[i].next == NodeAt(nodes, i + 1) {
        if i < k {
          assert nodes[i] == before[i] != start;
        } else if k + 1 < i {
          assert nodes[i] == before[i - 1] != start;
        }
      }
    }

    method PushQueueEnd(val: T) returns (ghost node: Node<T>)
      requires Valid()
      modifies this, nodes
      ensures Valid() && fresh(node) && node.val == val && node.priority == 0
      ensures nodes == old(nodes) + [node]
      ensures Items() == old(Items()) + [Item(val, 0)]
    {
      var n := new Node(val, 0, this);
      node := n;
      if head == null {
        head, nodes := n, [n];
        return;
      }
      var start := head;
      ghost var k := 0;
      while start.next != null
        invariant 0 <= k < |nodes| && start == nodes[k]
        decreases |nodes| - k
      {
        start := start.next;
        k := k + 1;
      }
      ItemsOfInsert(nodes, |nodes|, n);
      LinkAfter(start, k, n);
    }
  }
}
