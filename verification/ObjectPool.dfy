/** The fixed-capacity order pool: a free list threaded through the unused slots. */
module ObjectPool {
  import opened Types
  import opened Chains
  import opened Counting

  // `fl` lists the unused slots in the order `acquire` will hand them out.
  ghost predicate FreeLinked(mem: seq<Slot>, free: int, fl: seq<int>) {
    && free == At(fl, 0) && NoDup(fl)
    && (forall k :: 0 <= k < |fl| ==> 0 <= fl[k] < |mem| && mem[fl[k]] == Free(At(fl, k + 1)))
    && (forall p :: 0 <= p < |mem| && mem[p].Free? ==> p in fl)
  }

  // Changes confined to live slots do not disturb the free list.
  ghost predicate FreeUntouched(mem: seq<Slot>, mem': seq<Slot>) {
    |mem'| == |mem| && forall p {:trigger mem'[p]} :: 0 <= p < |mem| ==>
      if mem[p].Free? then mem'[p] == mem[p] else mem'[p].Live?
  }

  lemma FreeFrame(mem: seq<Slot>, mem': seq<Slot>, free: int, fl: seq<int>)
    requires FreeLinked(mem, free, fl) && FreeUntouched(mem, mem')
    ensures FreeLinked(mem', free, fl)
  {
    forall k | 0 <= k < |fl| ensures mem'[fl[k]] == Free(At(fl, k + 1)) {
    }
    forall p | 0 <= p < |mem'| && mem'[p].Free? ensures p in fl {
      assert mem[p].Free?;
    }
  }

  class Pool {
    const capacity: nat
    const slots: array<Slot>
    var free: int
    var inUse: nat

    ghost var freeList: seq<int>

    ghost predicate Valid()
      reads this, slots
    {
      && slots.Length == capacity
      && FreeLinked(slots[..], free, freeList)
      && inUse + |freeList| == capacity
    }

    constructor (cap: nat)
      ensures Valid() && capacity == cap && inUse == 0
      ensures fresh(slots)
      ensures forall p :: 0 <= p < slots.Length ==> slots[p].Free?
    {
      capacity := cap;
      slots := new Slot[cap](_ => Free(NULL));
      free := NULL;
      inUse := 0;
      new;
      hide FreeLinked;
      var i := 0;
      while i + 1 < cap
        modifies slots
        invariant 0 <= i && (i < cap || cap == 0)
        invariant forall k :: 0 <= k < cap ==> slots[k] == Free(if k < i then k + 1 else NULL)
      {
        slots[i] := Free(i + 1);
        i := i + 1;
      }
      if cap > 0 {
        slots[cap - 1] := Free(NULL);
        free := 0;
      }
      freeList := seq(cap, k => k);
      ThreadedFree(slots[..], freeList);
    }

    lemma Bound()
      requires Valid()
      ensures inUse <= capacity == slots.Length
      ensures free == NULL <==> inUse == capacity
      ensures free != NULL ==> 0 <= free < slots.Length && slots[free].Free?
    {
    }

    // Null when exhausted; otherwise a slot that is now the caller's to fill.
    method Acquire() returns (p: int)
      requires Valid()
      modifies this, slots
      ensures Valid()
      ensures p == old(free) && (p == NULL <==> old(inUse) == capacity)
      ensures p == NULL ==> slots[..] == old(slots[..]) && inUse == old(inUse)
      ensures p != NULL ==> 0 <= p < capacity && old(slots[..])[p].Free? && inUse == old(inUse) + 1
      ensures p != NULL ==> slots[..] == old(slots[..])[p := Live(Node(NoOrder, NULL, NULL, NULL))]
      ensures p != NULL ==> old(slots[..])[p] == Free(free)
    {
      if free == NULL {
        return NULL;
      }
      ghost var mem, fl := slots[..], freeList;
      p := free;
      assert fl != [] && mem[fl[0]].Free?;
      free := slots[p].link;
      inUse := inUse + 1;
      slots[p] := Live(Node(NoOrder, NULL, NULL, NULL));
      freeList := fl[1..];
      AcquireFree(mem, fl);
      assert slots[..] == mem[p := Live(Node(NoOrder, NULL, NULL, NULL))];
    }

    // Releasing null does nothing.
    method Release(p: int)
      requires Valid() && (p == NULL || IsLive(slots[..], p))
      modifies this, slots
      ensures Valid() && inUse == old(inUse) - (if p == NULL then 0 else 1)
      ensures p == NULL ==> slots[..] == old(slots[..]) && free == old(free)
      ensures p != NULL ==> slots[..] == old(slots[..])[p := Free(old(free))] && free == p
    {
      if p == NULL {
        return;
      }
      ghost var mem, fl := slots[..], freeList;
      ReleaseFree(mem, free, fl, p);
      slots[p] := Free(free);
      assert slots[..] == mem[p := Free(free)];
      free := p;
      inUse := inUse - 1;
      freeList := [p] + fl;
    }
  }

  // Each slot linked to the next, the last to null.
  lemma ThreadedFree(mem: seq<Slot>, fl: seq<int>)
    requires |fl| == |mem| && forall k :: 0 <= k < |fl| ==> fl[k] == k
    requires forall k :: 0 <= k < |mem| ==> mem[k] == Free(if k + 1 < |mem| then k + 1 else NULL)
    ensures FreeLinked(mem, if |mem| > 0 then 0 else NULL, fl)
  {
    forall p | 0 <= p < |mem| ensures p in fl {
      assert fl[p] == p;
    }
  }

  lemma AcquireFree(mem: seq<Slot>, fl: seq<int>)
    requires fl != [] && FreeLinked(mem, fl[0], fl)
    ensures mem[fl[0]].Free?
    ensures FreeLinked(mem[fl[0] := Live(Node(NoOrder, NULL, NULL, NULL))], mem[fl[0]].link, fl[1..])
  {
    var mem' := mem[fl[0] := Live(Node(NoOrder, NULL, NULL, NULL))];
    forall k | 0 <= k < |fl| - 1 ensures mem'[fl[1..][k]] == Free(At(fl[1..], k + 1)) {
      assert mem[fl[k + 1]] == Free(At(fl, k + 2));
    }
  }

  lemma ReleaseFree(mem: seq<Slot>, free: int, fl: seq<int>, p: int)
    requires FreeLinked(mem, free, fl) && IsLive(mem, p)
    ensures FreeLinked(mem[p := Free(free)], p, [p] + fl) && |fl| < |mem|
  {
    var mem', fl' := mem[p := Free(free)], [p] + fl;
    assert p !in fl;
    assert NoDup(fl');
    forall k | 0 <= k < |fl'| ensures 0 <= fl'[k] < |mem'| && mem'[fl'[k]] == Free(At(fl', k + 1)) {
      if k > 0 {
        assert mem[fl[k - 1]] == Free(At(fl, k)) && fl[k - 1] in fl;
      }
    }
    AtMost(fl', |mem|);
  }
}
