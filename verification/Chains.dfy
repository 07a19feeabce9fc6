/** The memory of the book: pool slots that are either a link of the free list or a live order, and
    the intrusive doubly linked lists threaded through them. Pointers are slot numbers. */
module Chains {
  import opened Counting
  import opened Types
  import opened MatcherLaws

  const NULL := -1

  // An order in the pool with its links: `level` is the number of the price level it is queued at.
  datatype Node = Node(order: Order, prev: int, next: int, level: int)

  // A slot is either a live order or a link of the free list, never both.
  datatype Slot = Free(link: int) | Live(node: Node)

  const NoOrder := Order(0, 0, 0, 0, 0, 0, Buy)

  predicate IsLive(mem: seq<Slot>, p: int) {
    0 <= p < |mem| && mem[p].Live?
  }

  function OrderAt(mem: seq<Slot>, p: int): Order {
    if IsLive(mem, p) then mem[p].node.order else NoOrder
  }

  // The k-th slot of a chain, or null beyond either end.
  function At(c: seq<int>, k: int): int {
    if 0 <= k < |c| then c[k] else NULL
  }

  ghost predicate LinkedAt(mem: seq<Slot>, c: seq<int>, k: int)
    requires 0 <= k < |c|
  {
    IsLive(mem, c[k]) && mem[c[k]].node.prev == At(c, k - 1) && mem[c[k]].node.next == At(c, k + 1)
  }

  // `c` lists the slots of a well-formed chain from head to tail.
  ghost predicate Linked(mem: seq<Slot>, c: seq<int>) {
    NoDup(c) && forall k {:trigger LinkedAt(mem, c, k)} :: 0 <= k < |c| ==> LinkedAt(mem, c, k)
  }

  ghost function OrdersOf(mem: seq<Slot>, c: seq<int>): (r: seq<Order>)
    ensures |r| == |c|
    ensures forall k :: 0 <= k < |c| ==> r[k] == OrderAt(mem, c[k])
  {
    seq(|c|, k requires 0 <= k < |c| => OrderAt(mem, c[k]))
  }

  ghost predicate SameOn(mem: seq<Slot>, mem': seq<Slot>, c: seq<int>) {
    |mem'| == |mem| && forall k :: 0 <= k < |c| && 0 <= c[k] < |mem| ==> mem'[c[k]] == mem[c[k]]
  }

  // A chain none of whose slots changed is still that chain, of the same orders.
  lemma LinkedFrame(mem: seq<Slot>, mem': seq<Slot>, c: seq<int>)
    requires Linked(mem, c) && SameOn(mem, mem', c)
    ensures Linked(mem', c) && OrdersOf(mem', c) == OrdersOf(mem, c)
  {
    forall k | 0 <= k < |c| ensures LinkedAt(mem', c, k) && OrderAt(mem', c[k]) == OrderAt(mem, c[k]) {
      assert LinkedAt(mem, c, k);
    }
  }

  // ---------------------------------------------------------------------------------------------
  // Joining the tail
  // ---------------------------------------------------------------------------------------------

  function SetNext(mem: seq<Slot>, p: int, next: int): (r: seq<Slot>)
    ensures |r| == |mem|
  {
    if IsLive(mem, p) then mem[p := Live(mem[p].node.(next := next))] else mem
  }

  function SetPrev(mem: seq<Slot>, p: int, prev: int): (r: seq<Slot>)
    ensures |r| == |mem|
  {
    if IsLive(mem, p) then mem[p := Live(mem[p].node.(prev := prev))] else mem
  }

  function SetLinks(mem: seq<Slot>, p: int, prev: int, next: int, level: int): (r: seq<Slot>)
    ensures |r| == |mem|
  {
    if IsLive(mem, p) then mem[p := Live(mem[p].node.(prev := prev, next := next, level := level))] else mem
  }

  // What `enqueue` does to memory.
  function Enqueued(mem: seq<Slot>, tail: int, p: int, level: int): seq<Slot> {
    SetNext(SetLinks(mem, p, tail, NULL, level), tail, p)
  }

  lemma EnqueueSlot(mem: seq<Slot>, c: seq<int>, p: int, level: int, k: int)
    requires Linked(mem, c) && IsLive(mem, p) && p !in c && 0 <= k <= |c|
    ensures var mem', c' := Enqueued(mem, At(c, |c| - 1), p, level), c + [p];
      && LinkedAt(mem', c', k)
      && OrderAt(mem', c'[k]) == OrderAt(mem, c'[k])
  {
    hide NoDup;
    if k < |c| {
      assert LinkedAt(mem, c, k) && c[k] in c;
      Apart(c, k, |c| - 1);
    }
    if |c| > 0 {
      assert LinkedAt(mem, c, |c| - 1) && c[|c| - 1] in c;
    }
  }

  lemma EnqueueLinks(mem: seq<Slot>, c: seq<int>, p: int, level: int)
    requires Linked(mem, c) && IsLive(mem, p) && p !in c
    ensures var mem' := Enqueued(mem, At(c, |c| - 1), p, level);
      && Linked(mem', c + [p])
      && OrdersOf(mem', c + [p]) == OrdersOf(mem, c) + [OrderAt(mem, p)]
  {
    hide LinkedAt, Enqueued, OrderAt, IsLive;
    var c', mem' := c + [p], Enqueued(mem, At(c, |c| - 1), p, level);
    forall k | 0 <= k < |c'| ensures LinkedAt(mem', c', k) && OrderAt(mem', c'[k]) == OrderAt(mem, c'[k]) {
      EnqueueSlot(mem, c, p, level, k);
    }
  }

  lemma EnqueueFrame(mem: seq<Slot>, c: seq<int>, p: int, level: int, x: int)
    requires Linked(mem, c) && 0 <= x < |mem| && x !in c && x != p
    ensures var mem' := Enqueued(mem, At(c, |c| - 1), p, level);
            |mem'| == |mem| && mem'[x] == mem[x]
  {
  }

  // ---------------------------------------------------------------------------------------------
  // Leaving from anywhere
  // ---------------------------------------------------------------------------------------------

  // What `unlink` does to memory.
  function Unlinked(mem: seq<Slot>, p: int): seq<Slot>
    requires IsLive(mem, p)
  {
    var prev, next := mem[p].node.prev, mem[p].node.next;
    SetLinks(SetPrev(SetNext(mem, prev, next), next, prev), p, NULL, NULL, NULL)
  }

  function Drop(c: seq<int>, k: int): seq<int>
    requires 0 <= k < |c|
  {
    c[..k] + c[k + 1..]
  }

  lemma UnlinkSlot(mem: seq<Slot>, c: seq<int>, k: int, j: int)
    requires Linked(mem, c) && 0 <= k < |c| && 0 <= j < |c| && j != k
    ensures IsLive(mem, c[k]) && IsLive(mem, c[j])
    ensures Unlinked(mem, c[k])[c[j]] ==
      Live(mem[c[j]].node.(prev := if j == k + 1 then At(c, k - 1) else At(c, j - 1),
                           next := if j == k - 1 then At(c, k + 1) else At(c, j + 1)))
  {
    hide NoDup;
    Apart(c, j, k);
    assert LinkedAt(mem, c, k) && LinkedAt(mem, c, j);
    if k > 0 {
      assert LinkedAt(mem, c, k - 1);
      Apart(c, j, k - 1);
      Apart(c, k, k - 1);
    }
    if k + 1 < |c| {
      assert LinkedAt(mem, c, k + 1);
      Apart(c, j, k + 1);
      Apart(c, k, k + 1);
    }
  }

  lemma Apart(c: seq<int>, i: int, j: int)
    requires NoDup(c) && 0 <= i < |c| && 0 <= j < |c|
    ensures c[i] == c[j] <==> i == j
  {
  }

  lemma UnlinkLinks(mem: seq<Slot>, c: seq<int>, k: int)
    requires Linked(mem, c) && 0 <= k < |c|
    ensures IsLive(mem, c[k])
    ensures Linked(Unlinked(mem, c[k]), Drop(c, k))
    ensures OrdersOf(Unlinked(mem, c[k]), Drop(c, k)) == OrdersOf(mem, c)[..k] + OrdersOf(mem, c)[k + 1..]
  {
    hide Unlinked, NoDup;
    assert LinkedAt(mem, c, k);
    var c', mem' := Drop(c, k), Unlinked(mem, c[k]);
    DropNoDup(c, k);
    UnlinkLength(mem, c[k]);
    forall j | 0 <= j < |c'|
      ensures LinkedAt(mem', c', j) && OrderAt(mem', c'[j]) == OrderAt(mem, c'[j])
    {
      UnlinkSlot(mem, c, k, if j < k then j else j + 1);
    }
  }

  lemma DropNoDup(c: seq<int>, k: int)
    requires NoDup(c) && 0 <= k < |c|
    ensures NoDup(Drop(c, k))
  {
    forall i, j | 0 <= i < j < |Drop(c, k)| ensures Drop(c, k)[i] != Drop(c, k)[j] {
      Apart(c, if i < k then i else i + 1, if j < k then j else j + 1);
    }
  }

  lemma UnlinkLength(mem: seq<Slot>, p: int)
    requires IsLive(mem, p)
    ensures |Unlinked(mem, p)| == |mem|
  {
  }

  lemma UnlinkFrame(mem: seq<Slot>, c: seq<int>, k: int, x: int)
    requires Linked(mem, c) && 0 <= k < |c| && 0 <= x < |mem| && x !in c
    ensures IsLive(mem, c[k])
    ensures |Unlinked(mem, c[k])| == |mem| && Unlinked(mem, c[k])[x] == mem[x]
  {
    assert LinkedAt(mem, c, k);
    assert k > 0 ==> c[k - 1] in c;
    assert k + 1 < |c| ==> c[k + 1] in c;
  }

  // ---------------------------------------------------------------------------------------------
  // A partial fill touches one order and no link
  // ---------------------------------------------------------------------------------------------

  function Reduced(mem: seq<Slot>, p: int, quantity: int): seq<Slot>
    requires IsLive(mem, p)
  {
    var o := mem[p].node.order;
    mem[p := Live(mem[p].node.(order := o.(remaining := o.remaining - quantity)))]
  }

  lemma ReduceSlot(mem: seq<Slot>, c: seq<int>, k: int, quantity: int, j: int)
    requires Linked(mem, c) && 0 <= k < |c| && 0 <= j < |c|
    ensures IsLive(mem, c[k])
    ensures LinkedAt(Reduced(mem, c[k], quantity), c, j)
    ensures var o := OrderAt(mem, c[j]);
      OrderAt(Reduced(mem, c[k], quantity), c[j]) == if j == k then o.(remaining := o.remaining - quantity) else o
  {
    hide NoDup;
    assert LinkedAt(mem, c, k) && LinkedAt(mem, c, j);
    Apart(c, j, k);
  }

  lemma ReduceLinks(mem: seq<Slot>, c: seq<int>, k: int, quantity: int)
    requires Linked(mem, c) && 0 <= k < |c|
    ensures IsLive(mem, c[k])
    ensures Linked(Reduced(mem, c[k], quantity), c)
    ensures var o := OrderAt(mem, c[k]);
      OrdersOf(Reduced(mem, c[k], quantity), c) == OrdersOf(mem, c)[k := o.(remaining := o.remaining - quantity)]
  {
    hide NoDup, LinkedAt, Reduced, OrderAt, IsLive;
    ReduceSlot(mem, c, k, quantity, k);
    forall j | 0 <= j < |c| ensures LinkedAt(Reduced(mem, c[k], quantity), c, j)
      && OrderAt(Reduced(mem, c[k], quantity), c[j])
      == (var o := OrderAt(mem, c[j]); if j == k then o.(remaining := o.remaining - quantity) else o)
    {
      ReduceSlot(mem, c, k, quantity, j);
    }
  }
}
