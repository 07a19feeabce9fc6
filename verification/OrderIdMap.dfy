/** The open-addressed id map: linear probing, Fibonacci hashing, and deletion by backward shift.

    The table is specified by the list of the surviving insertions, oldest first: `Build(h)` is the
    table that plain linear-probing insertion of `h` gives. `Erase` is proved to turn `Build(h)` into
    `Build` of the same list with that key left out, slot for slot. */
module OrderIdMap {
  import opened Counting

  // The null pointer: an `Order*` is the index of its slot in the pool.
  const NULL := -1

  datatype Cell = Empty | Full(key: int, value: int)

  // One insertion that has not been undone. Stamps grow with time and exist only in the proof.
  datatype Entry = Entry(key: int, value: int, stamp: int)

  // ---------------------------------------------------------------------------------------------
  // Slots around the ring
  // ---------------------------------------------------------------------------------------------

  // `(i + 1) & mask_`
  function Next(i: nat, cap: nat): (r: nat)
    requires i < cap
    ensures r < cap
  {
    if i + 1 == cap then 0 else i + 1
  }

  // Steps from `a` forward to `b`.
  function Dist(a: nat, b: nat, cap: nat): (d: nat)
    requires a < cap && b < cap
    ensures d < cap
  {
    if a <= b then b - a else b + cap - a
  }

  // Fibonacci hashing on 64-bit words: the high half of the product, masked to the table.
  function Slot(id: int, cap: nat): (r: nat)
    requires cap > 0
    ensures r < cap
  {
    (((id % 0x1_0000_0000_0000_0000) * 0x9E37_79B9_7F4A_7C15) % 0x1_0000_0000_0000_0000 / 0x1_0000_0000) % cap
  }

  // ---------------------------------------------------------------------------------------------
  // The specification: insertion into a table, and the table of a list of insertions
  // ---------------------------------------------------------------------------------------------

  // The first free slot at or after `i`, looking at `fuel` slots.
  function FirstFree(c: seq<Cell>, i: nat, fuel: nat): (r: int)
    requires i < |c|
    ensures r == -1 || (0 <= r < |c| && c[r].Empty?)
    decreases fuel
  {
    if fuel == 0 then -1
    else if c[i].Empty? then i
    else FirstFree(c, Next(i, |c|), fuel - 1)
  }

  function Inserted(c: seq<Cell>, key: int, value: int): (r: seq<Cell>)
    requires |c| > 0
    ensures |r| == |c|
  {
    var i := FirstFree(c, Slot(key, |c|), |c|);
    if i == -1 then c else c[i := Full(key, value)]
  }

  function Build(h: seq<Entry>, cap: nat): (c: seq<Cell>)
    requires cap > 0
    ensures |c| == cap
  {
    if h == [] then seq(cap, _ => Empty)
    else Inserted(Build(Init(h), cap), Last(h).key, Last(h).value)
  }

  function Init(h: seq<Entry>): seq<Entry>
    requires h != []
  {
    h[..|h| - 1]
  }

  function Last(h: seq<Entry>): Entry
    requires h != []
  {
    h[|h| - 1]
  }

  // The surviving insertions once `key` has been deleted.
  function Without(h: seq<Entry>, key: int): seq<Entry> {
    if h == [] then []
    else if Last(h).key == key then Without(Init(h), key)
    else Without(Init(h), key) + [Last(h)]
  }

  // The finite map a list of insertions stands for.
  function Index(h: seq<Entry>): map<int, Entry> {
    if h == [] then map[] else Index(Init(h))[Last(h).key := Last(h)]
  }

  // Every key is inserted once, and stamps grow.
  ghost predicate Ordered(h: seq<Entry>) {
    h != [] ==>
      && Ordered(Init(h))
      && Last(h).key !in Index(Init(h))
      && Below(Index(Init(h)), Last(h).stamp)
  }

  ghost predicate Below(m: map<int, Entry>, stamp: int) {
    forall k :: k in m ==> m[k].stamp < stamp
  }

  lemma IndexExtend(h: seq<Entry>, e: Entry)
    ensures Index(h + [e]) == Index(h)[e.key := e]
    ensures Ordered(h) && e.key !in Index(h) && Below(Index(h), e.stamp) ==> Ordered(h + [e])
  {
    assert Init(h + [e]) == h;
  }

  lemma {:induction false} WithoutAbsent(h: seq<Entry>, key: int)
    requires key !in Index(h)
    ensures Without(h, key) == h
  {
    if h != [] {
      WithoutAbsent(Init(h), key);
    }
  }

  /** Deleting a key takes exactly one entry off the list and exactly that key off the map. */
  lemma {:induction false} WithoutIndex(h: seq<Entry>, key: int)
    requires Ordered(h)
    ensures Index(Without(h, key)) == Index(h) - {key}
    ensures Ordered(Without(h, key))
    ensures |Without(h, key)| == if key in Index(h) then |h| - 1 else |h|
  {
    if h != [] {
      WithoutIndex(Init(h), key);
      if Last(h).key == key {
        WithoutAbsent(Init(h), key);
      } else {
        IndexExtend(Without(Init(h), key), Last(h));
      }
    }
  }

  // ---------------------------------------------------------------------------------------------
  // What makes a table the table of `h`: every entry sits past slots taken before it arrived
  // ---------------------------------------------------------------------------------------------

  // Slot `q` lies on the probe path of `key`, strictly before slot `p`.
  ghost predicate OnPath(cap: nat, key: int, q: nat, p: nat)
    requires p < cap && q < cap
  {
    Dist(Slot(key, cap), q, cap) < Dist(Slot(key, cap), p, cap)
  }

  // `pos` says which slot holds each key of `m`.
  ghost predicate Holds(c: seq<Cell>, pos: map<int, nat>, m: map<int, Entry>) {
    && pos.Keys == m.Keys
    && (forall k :: k in pos ==> pos[k] < |c| && c[pos[k]] == Full(k, m[k].value))
    && (forall p :: 0 <= p < |c| && c[p].Full? ==> c[p].key in pos && pos[c[p].key] == p)
  }

  // Slot `q` is taken by a key older than `k`.
  ghost predicate Older(c: seq<Cell>, m: map<int, Entry>, q: nat, k: int)
    requires q < |c| && k in m
  {
    c[q].Full? && c[q].key in m && m[c[q].key].stamp < m[k].stamp
  }

  ghost predicate Represents(c: seq<Cell>, pos: map<int, nat>, m: map<int, Entry>) {
    && Holds(c, pos, m)
    && (forall k, q {:trigger OnPath(|c|, k, q, pos[k])} ::
          k in pos && 0 <= q < |c| && OnPath(|c|, k, q, pos[k]) ==> Older(c, m, q, k))
  }

  lemma {:induction false} FirstFreeIs(c: seq<Cell>, i: nat, p: nat, fuel: nat)
    requires i < |c| && p < |c| && c[p].Empty?
    requires Dist(i, p, |c|) < fuel
    requires forall q :: 0 <= q < |c| && Dist(i, q, |c|) < Dist(i, p, |c|) ==> c[q].Full?
    ensures FirstFree(c, i, fuel) == p
    decreases fuel
  {
    if i != p {
      var n := Next(i, |c|);
      assert Dist(i, i, |c|) < Dist(i, p, |c|);
      assert Dist(n, p, |c|) == Dist(i, p, |c|) - 1;
      forall q | 0 <= q < |c| && Dist(n, q, |c|) < Dist(n, p, |c|) ensures c[q].Full? {
        assert Dist(i, q, |c|) < Dist(i, p, |c|);
      }
      FirstFreeIs(c, n, p, fuel - 1);
    }
  }

  // Taking the youngest entry back out leaves the table of the older ones.
  lemma DropYoungest(c: seq<Cell>, pos: map<int, nat>, m: map<int, Entry>, key: int)
    requires Represents(c, pos, m) && key in m && Below(m - {key}, m[key].stamp)
    ensures Represents(c[pos[key] := Empty], pos - {key}, m - {key})
  {
    var c', pos', m' := c[pos[key] := Empty], pos - {key}, m - {key};
    forall k, q | k in pos' && 0 <= q < |c| && OnPath(|c|, k, q, pos[k]) ensures Older(c', m', q, k) {
      assert Older(c, m, q, k);
      assert k in m';
    }
  }

  // Every slot the youngest key probed past is taken, so re-inserting it finds the same slot.
  lemma PutBack(c: seq<Cell>, pos: map<int, nat>, m: map<int, Entry>, key: int)
    requires Represents(c, pos, m) && key in m
    ensures |c| > 0 && c == Inserted(c[pos[key] := Empty], key, m[key].value)
  {
    var p := pos[key];
    var c', home := c[p := Empty], Slot(key, |c|);
    forall q | 0 <= q < |c| && Dist(home, q, |c|) < Dist(home, p, |c|) ensures c'[q].Full? {
      assert OnPath(|c|, key, q, pos[key]);
    }
    FirstFreeIs(c', home, p, |c|);
  }

  /** A table in which every key is reachable past older keys is the table linear probing builds. */
  lemma {:induction false} RepresentsIsBuild(c: seq<Cell>, pos: map<int, nat>, h: seq<Entry>)
    requires |c| > 0 && Ordered(h) && Represents(c, pos, Index(h))
    ensures c == Build(h, |c|)
    decreases |h|
  {
    if h == [] {
      assert forall p :: 0 <= p < |c| ==> c[p].Empty?;
    } else {
      var key := Last(h).key;
      assert Index(h) - {key} == Index(Init(h));
      DropYoungest(c, pos, Index(h), key);
      RepresentsIsBuild(c[pos[key] := Empty], pos - {key}, Init(h));
      PutBack(c, pos, Index(h), key);
    }
  }

  // ---------------------------------------------------------------------------------------------
  // Counting
  // ---------------------------------------------------------------------------------------------

  ghost function FullSlots(c: seq<Cell>): set<int> {
    set p | 0 <= p < |c| && c[p].Full?
  }

  lemma OneSlotLess(c: seq<Cell>, p: nat)
    requires p < |c| && c[p].Full?
    ensures |FullSlots(c)| == |FullSlots(c[p := Empty])| + 1
  {
    assert FullSlots(c) == FullSlots(c[p := Empty]) + {p};
  }

  lemma {:induction false} AsManyAsEntries(c: seq<Cell>, pos: map<int, nat>, h: seq<Entry>)
    requires Ordered(h) && Represents(c, pos, Index(h))
    ensures |FullSlots(c)| == |h|
    decreases |h|
  {
    if h == [] {
      assert FullSlots(c) == {};
    } else {
      var key := Last(h).key;
      assert Index(h) - {key} == Index(Init(h));
      DropYoungest(c, pos, Index(h), key);
      AsManyAsEntries(c[pos[key] := Empty], pos - {key}, Init(h));
      OneSlotLess(c, pos[key]);
    }
  }

  /** There is a free slot exactly when there are fewer entries than slots. */
  lemma FreeSlotIff(c: seq<Cell>, pos: map<int, nat>, h: seq<Entry>)
    requires Ordered(h) && Represents(c, pos, Index(h))
    ensures |h| <= |c|
    ensures |h| < |c| <==> exists p :: 0 <= p < |c| && c[p].Empty?
  {
    AsManyAsEntries(c, pos, h);
    SubsetSize(FullSlots(c), Indices(|c|));
    if p :| 0 <= p < |c| && c[p].Empty? {
      SubsetSize(FullSlots(c), Indices(|c|) - {p});
    } else {
      assert FullSlots(c) == Indices(|c|);
    }
  }

  // ---------------------------------------------------------------------------------------------
  // Backward shift: the hole moves forward, and only keys past `j` may still have it on their path
  // ---------------------------------------------------------------------------------------------

  ghost predicate Shifting(c: seq<Cell>, pos: map<int, nat>, m: map<int, Entry>, hole: nat, j: nat) {
    && hole < |c| && j < |c| && c[hole].Empty?
    && Holds(c, pos, m)
    && (forall k, q {:trigger OnPath(|c|, k, q, pos[k])} ::
          k in pos && 0 <= q < |c| && OnPath(|c|, k, q, pos[k]) ==>
          if q == hole then Dist(hole, pos[k], |c|) > Dist(hole, j, |c|) else Older(c, m, q, k))
  }

  // `moveBack`: is the home slot of the key at `j` cyclically outside the interval from the hole to `j`?
  predicate MoveBack(cap: nat, key: int, i: nat, j: nat)
    requires cap > 0
  {
    var home := Slot(key, cap);
    if i <= j then home <= i || home > j else home <= i && home > j
  }

  // The interval test decides whether the hole is on the probe path of the key at `j`.
  lemma MoveBackIsOnPath(cap: nat, key: int, i: nat, j: nat)
    requires i < cap && j < cap && i != j
    ensures OnPath(cap, key, i, j) <==> MoveBack(cap, key, i, j)
  {
    Interval(Slot(key, cap), i, j, cap);
  }

  lemma Interval(home: nat, i: nat, j: nat, cap: nat)
    requires home < cap && i < cap && j < cap && i != j
    ensures Dist(home, i, cap) < Dist(home, j, cap) <==>
            if i <= j then home <= i || home > j else home <= i && home > j
  {
  }

  // ---------------------------------------------------------------------------------------------
  // Does the forward walk stop?
  // ---------------------------------------------------------------------------------------------

  // The walk looked at slot `j` last and has its hole at `i`, which still counts as occupied.
  datatype Walk = Walking(cells: seq<Cell>, i: nat, j: nat) | Stopped(cells: seq<Cell>, i: nat)

  // One turn of the walk.
  function WalkTurn(c: seq<Cell>, i: nat, j: nat): Walk
    requires i < |c| && j < |c|
  {
    var n := Next(j, |c|);
    if c[n].Empty? then Stopped(c, i)
    else if MoveBack(|c|, c[n].key, i, n) then Walking(c[i := c[n]], n, n)
    else Walking(c, i, n)
  }

  // The walk from slot `i` after `n` turns.
  function Walked(c: seq<Cell>, i: nat, n: nat): (w: Walk)
    requires i < |c|
    ensures |w.cells| == |c| && w.i < |c| && (w.Walking? ==> w.j < |c|)
  {
    if n == 0 then Walking(c, i, i)
    else
      var w := Walked(c, i, n - 1);
      if w.Walking? then WalkTurn(w.cells, w.i, w.j) else w
  }

  lemma WalkOn(c: seq<Cell>, i: nat, n: nat, d: seq<Cell>, hole: nat, j: nat)
    requires i < |c| && Walked(c, i, n) == Walking(d, hole, j)
    ensures Walked(c, i, n + 1) == WalkTurn(d, hole, j)
  {
  }

  lemma WalkStart(c: seq<Cell>, i: nat)
    requires i < |c|
    ensures Walked(c, i, 0) == Walking(c, i, i)
  {
  }

  predicate SameFree(c: seq<Cell>, d: seq<Cell>) {
    |c| == |d| && forall k :: 0 <= k < |c| ==> c[k].Empty? == d[k].Empty?
  }

  lemma {:induction false} WalkedOn(c: seq<Cell>, i: nat, n: nat)
    requires i < |c| && c[i].Full?
    ensures var w := Walked(c, i, n);
      && SameFree(c, w.cells) && w.cells[w.i].Full?
      && (w.Walking? && n < |c| ==> Dist(i, w.j, |c|) == n)
      && (w.Walking? ==> w.cells[w.j].Full?)
      && (w.Stopped? ==> exists k :: 0 <= k < |c| && c[k].Empty?)
  {
    hide MoveBack;
    if n > 0 {
      WalkedOn(c, i, n - 1);
    }
  }

  /** The forward walk from an occupied slot stops if and only if some slot is free. */
  lemma WalkStopsIff(c: seq<Cell>, i: nat)
    requires i < |c| && c[i].Full?
    ensures (exists n: nat :: Walked(c, i, n).Stopped?) <==> (exists k :: 0 <= k < |c| && c[k].Empty?)
  {
    hide Walked;
    if k :| 0 <= k < |c| && c[k].Empty? {
      var n := Dist(i, k, |c|);
      WalkedOn(c, i, n);
      assert Walked(c, i, n).Stopped?;
    }
    forall n: nat | Walked(c, i, n).Stopped? ensures exists k :: 0 <= k < |c| && c[k].Empty? {
      WalkedOn(c, i, n);
    }
  }

  lemma ShiftStart(c: seq<Cell>, pos: map<int, nat>, m: map<int, Entry>, i: nat)
    requires Represents(c, pos, m) && i < |c| && c[i].Full?
    ensures Shifting(c[i := Empty], pos - {c[i].key}, m - {c[i].key}, i, i)
  {
    var c', pos', m' := c[i := Empty], pos - {c[i].key}, m - {c[i].key};
    forall k, q | k in pos' && 0 <= q < |c| && OnPath(|c|, k, q, pos[k])
      ensures if q == i then Dist(i, pos[k], |c|) > Dist(i, i, |c|) else Older(c', m', q, k)
    {
      assert Older(c, m, q, k);
    }
  }

  lemma ShiftSkip(c: seq<Cell>, pos: map<int, nat>, m: map<int, Entry>, hole: nat, j: nat)
    requires Shifting(c, pos, m, hole, j)
    requires var n := Next(j, |c|); n != hole && c[n].Full? && !OnPath(|c|, c[n].key, hole, n)
    ensures Shifting(c, pos, m, hole, Next(j, |c|))
  {
    var n := Next(j, |c|);
    forall k | k in pos && OnPath(|c|, k, hole, pos[k]) ensures Dist(hole, pos[k], |c|) > Dist(hole, n, |c|) {
      assert Dist(hole, n, |c|) == Dist(hole, j, |c|) + 1;
    }
  }

  lemma ShiftMove(c: seq<Cell>, pos: map<int, nat>, m: map<int, Entry>, hole: nat, j: nat)
    requires Shifting(c, pos, m, hole, j)
    requires var n := Next(j, |c|); n != hole && c[n].Full? && OnPath(|c|, c[n].key, hole, n)
    ensures var n := Next(j, |c|);
            Shifting(c[hole := c[n]][n := Empty], pos[c[n].key := hole], m, n, n)
  {
    var n := Next(j, |c|);
    var c', pos' := c[hole := c[n]][n := Empty], pos[c[n].key := hole];
    forall k, q | k in pos' && 0 <= q < |c| && OnPath(|c|, k, q, pos'[k])
      ensures if q == n then Dist(n, pos'[k], |c|) > 0 else Older(c', m, q, k)
    {
      if q != n {
        MovedPath(c, pos, m, hole, j, k, q);
      }
    }
  }

  lemma MovedPath(c: seq<Cell>, pos: map<int, nat>, m: map<int, Entry>, hole: nat, j: nat, k: int, q: nat)
    requires Shifting(c, pos, m, hole, j)
    requires var n := Next(j, |c|); n != hole && c[n].Full? && OnPath(|c|, c[n].key, hole, n)
    requires k in pos && q < |c| && q != Next(j, |c|)
    requires OnPath(|c|, k, q, pos[c[Next(j, |c|)].key := hole][k])
    ensures Older(c[hole := c[Next(j, |c|)]][Next(j, |c|) := Empty], m, q, k)
  {
    var n := Next(j, |c|);
    if k == c[n].key {
      assert OnPath(|c|, k, q, pos[k]);
      assert Older(c, m, q, k);
    } else if q == hole {
      assert OnPath(|c|, k, n, pos[k]);
      assert Older(c, m, n, k);
    } else {
      assert Older(c, m, q, k);
    }
  }

  lemma ShiftDone(c: seq<Cell>, pos: map<int, nat>, m: map<int, Entry>, hole: nat, j: nat)
    requires Shifting(c, pos, m, hole, j)
    requires Next(j, |c|) != hole && c[Next(j, |c|)].Empty?
    ensures Represents(c, pos, m)
  {
    var n := Next(j, |c|);
    forall k | k in pos ensures !OnPath(|c|, k, hole, pos[k]) {
      assert OnPath(|c|, k, hole, pos[k]) ==> OnPath(|c|, k, n, pos[k]);
    }
  }

  // One turn of the forward walk towards the free slot `e`.
  lemma ShiftStep(c: seq<Cell>, pos: map<int, nat>, m: map<int, Entry>, hole: nat, j: nat, e: nat)
    returns (c': seq<Cell>, pos': map<int, nat>, hole': nat)
    requires Shifting(c, pos, m, hole, j)
    requires e < |c| && c[e].Empty? && Dist(hole, j, |c|) < Dist(hole, e, |c|)
    requires c[Next(j, |c|)].Full?
    ensures var n := Next(j, |c|);
            && n != hole && Dist(n, e, |c|) < Dist(j, e, |c|)
            && Shifting(c', pos', m, hole', n) && |c'| == |c|
            && c'[e].Empty? && Dist(hole', n, |c|) < Dist(hole', e, |c|)
            && hole' == (if OnPath(|c|, c[n].key, hole, n) then n else hole)
            && c' == (if OnPath(|c|, c[n].key, hole, n) then c[hole := c[n]][n := Empty] else c)
  {
    var n := Next(j, |c|);
    if OnPath(|c|, c[n].key, hole, n) {
      ShiftMove(c, pos, m, hole, j);
      c', pos', hole' := c[hole := c[n]][n := Empty], pos[c[n].key := hole], n;
    } else {
      ShiftSkip(c, pos, m, hole, j);
      c', pos', hole' := c, pos, hole;
    }
  }

  // ---------------------------------------------------------------------------------------------
  // Probing
  // ---------------------------------------------------------------------------------------------

  // The first `n` slots from `home` on are taken by keys other than `key`.
  ghost predicate Passed(c: seq<Cell>, home: nat, key: int, n: nat)
    requires home < |c|
  {
    forall q :: 0 <= q < |c| && Dist(home, q, |c|) < n ==> c[q].Full? && c[q].key != key
  }

  lemma ProbeMiss(c: seq<Cell>, pos: map<int, nat>, m: map<int, Entry>, key: int, i: nat, n: nat)
    requires i < |c| && Represents(c, pos, m) && Passed(c, Slot(key, |c|), key, n)
    requires n >= |c| || (Dist(Slot(key, |c|), i, |c|) == n && c[i].Empty?)
    ensures key !in m
  {
    assert key in m ==> Dist(Slot(key, |c|), pos[key], |c|) >= n;
    assert key in m ==> OnPath(|c|, key, i, pos[key]);
  }

  // Filling the first free slot of the probe sequence with a new key keeps every path intact.
  lemma FillSlot(c: seq<Cell>, pos: map<int, nat>, m: map<int, Entry>, e: Entry, i: nat)
    requires Represents(c, pos, m) && i < |c| && c[i].Empty?
    requires e.key !in m && Below(m, e.stamp)
    requires Passed(c, Slot(e.key, |c|), e.key, Dist(Slot(e.key, |c|), i, |c|))
    ensures Represents(c[i := Full(e.key, e.value)], pos[e.key := i], m[e.key := e])
  {
    var c', pos', m' := c[i := Full(e.key, e.value)], pos[e.key := i], m[e.key := e];
    forall k, q | k in pos' && 0 <= q < |c| && OnPath(|c|, k, q, pos'[k]) ensures Older(c', m', q, k) {
      if k != e.key {
        assert OnPath(|c|, k, q, pos[k]);
        assert Older(c, m, q, k);
      }
    }
  }

  // ---------------------------------------------------------------------------------------------
  // The table itself
  // ---------------------------------------------------------------------------------------------

  class Table {
    const capacity: nat
    const keys: array<int>
    const values: array<int>
    const occupied: array<bool>
    var size: nat

    // The surviving insertions, oldest first, and the slot that holds each key.
    ghost var hist: seq<Entry>
    ghost var pos: map<int, nat>
    ghost var clock: int

    ghost predicate Shape() {
      0 < capacity == keys.Length == values.Length == occupied.Length && keys != values
    }

    ghost function Cells(): (c: seq<Cell>)
      requires Shape()
      reads keys, values, occupied
      ensures |c| == capacity
    {
      seq(capacity, i requires 0 <= i < capacity && Shape() reads keys, values, occupied =>
        if occupied[i] then Full(keys[i], values[i]) else Empty)
    }

    ghost predicate Valid()
      reads this, keys, values, occupied
    {
      && Shape()
      && size == |hist|
      && Ordered(hist) && Below(Index(hist), clock)
      && Represents(Cells(), pos, Index(hist))
    }

    // The ordinary finite map the table stands for.
    ghost function Map(): map<int, int>
      reads this
    {
      map k | k in Index(hist) :: Index(hist)[k].value
    }

    constructor (cap: nat)
      requires cap > 0
      ensures Valid() && capacity == cap && size == 0 && Map() == map[]
      ensures fresh(keys) && fresh(values) && fresh(occupied)
    {
      capacity := cap;
      keys := new int[cap];
      values := new int[cap](_ => NULL);
      occupied := new bool[cap](_ => false);
      size := 0;
      hist := [];
      pos := map[];
      clock := 0;
    }

    method Find(id: int) returns (value: int)
      requires Valid()
      ensures value == if id in Map() then Map()[id] else NULL
    {
      ghost var c := Cells();
      var i := Slot(id, capacity);
      var probe := 0;
      while probe < capacity
        invariant 0 <= probe <= capacity && 0 <= i < capacity
        invariant probe < capacity ==> Dist(Slot(id, capacity), i, capacity) == probe
        invariant Passed(c, Slot(id, capacity), id, probe)
      {
        if !occupied[i] {
          ProbeMiss(c, pos, Index(hist), id, i, probe);
          return NULL;
        }
        if keys[i] == id {
          assert c[i] == Full(id, values[i]);
          return values[i];
        }
        i := Next(i, capacity);
        probe := probe + 1;
      }
      ProbeMiss(c, pos, Index(hist), id, i, probe);
      return NULL;
    }

    method Insert(id: int, value: int) returns (ok: bool)
      requires Valid()
      modifies this, keys, values, occupied
      ensures Valid()
      ensures ok <==> id !in old(Map()) && old(size) < capacity
      ensures ok ==> Map() == old(Map())[id := value] && size == old(size) + 1
      ensures ok ==> hist == old(hist) + [Entry(id, value, old(clock))]
      ensures !ok ==> Map() == old(Map()) && size == old(size) && hist == old(hist)
    {
      ghost var c := Cells();
      FreeSlotIff(c, pos, hist);
      var i := Slot(id, capacity);
      var probe := 0;
      while probe < capacity
        invariant 0 <= probe <= capacity && 0 <= i < capacity
        invariant probe < capacity ==> Dist(Slot(id, capacity), i, capacity) == probe
        invariant Passed(c, Slot(id, capacity), id, probe)
      {
        if occupied[i] && keys[i] == id {
          assert c[i] == Full(id, values[i]);
          return false;
        }
        if !occupied[i] {
          ProbeMiss(c, pos, Index(hist), id, i, probe);
          Place(i, id, value);
          return true;
        }
        i := Next(i, capacity);
        probe := probe + 1;
      }
      return false;
    }

    // Write a new key into the free slot its probe ended at.
    method Place(i: nat, id: int, value: int)
      requires Valid() && i < capacity && !occupied[i] && id !in Map()
      requires Passed(Cells(), Slot(id, capacity), id, Dist(Slot(id, capacity), i, capacity))
      modifies this, keys, values, occupied
      ensures Valid() && size == old(size) + 1
      ensures hist == old(hist) + [Entry(id, value, old(clock))]
      ensures Map() == old(Map())[id := value]
    {
      hide Represents, Slot, Passed, Ordered;
      ghost var c, e := Cells(), Entry(id, value, clock);
      FillSlot(c, pos, Index(hist), e, i);
      IndexExtend(hist, e);
      keys[i] := id;
      values[i] := value;
      occupied[i] := true;
      size := size + 1;
      hist, pos, clock := hist + [e], pos[id := i], clock + 1;
      assert Cells() == c[i := Full(id, value)];
    }

    /** Backward-shift deletion. Only deleting a key of a table with no free slot is left out: there the forward walk
        goes round for ever, by `WalkStopsIff`. */
    method Erase(id: int) returns (found: bool)
      requires Valid() && (id in Map() ==> size < capacity)
      modifies this, keys, values, occupied
      ensures Valid()
      ensures found <==> id in old(Map())
      ensures Map() == old(Map()) - {id}
      ensures size == old(size) - (if found then 1 else 0)
      ensures hist == Without(old(hist), id)
      ensures Cells() == Build(Without(old(hist), id), capacity)
    {
      hide Represents, Slot, Ordered, Build, Without, Index;
      WithoutIndex(hist, id);
      var i;
      found, i := Locate(id);
      if found {
        CloseHole(i);
      } else {
        WithoutAbsent(hist, id);
        RepresentsIsBuild(Cells(), pos, hist);
      }
    }

    method Locate(id: int) returns (found: bool, i: nat)
      requires Valid()
      ensures found ==> i < capacity && occupied[i] && keys[i] == id && id in Map()
      ensures !found ==> id !in Map()
    {
      ghost var c := Cells();
      i := Slot(id, capacity);
      var probe := 0;
      while probe < capacity
        invariant 0 <= probe <= capacity && 0 <= i < capacity
        invariant probe < capacity ==> Dist(Slot(id, capacity), i, capacity) == probe
        invariant Passed(c, Slot(id, capacity), id, probe)
      {
        if !occupied[i] {
          ProbeMiss(c, pos, Index(hist), id, i, probe);
          return false, i;
        }
        if keys[i] == id {
          assert c[i] == Full(id, values[i]);
          return true, i;
        }
        i := Next(i, capacity);
        probe := probe + 1;
      }
      ProbeMiss(c, pos, Index(hist), id, i, probe);
      return false, i;
    }

    // Empty slot `hole`, pulling back every later key that would become unreachable.
    method CloseHole(hole: nat)
      requires Valid() && hole < capacity && occupied[hole] && size < capacity
      modifies this, keys, values, occupied
      ensures Valid() && hist == Without(old(hist), old(keys[hole])) && size == old(size) - 1
      ensures Cells() == Build(hist, capacity)
    {
      hide Represents, Shifting, Slot, Ordered, Build;
      ghost var e, h := StartHole(hole);
      ghost var c, p;
      var i;
      i, c, p := WalkForward(hole, e, Index(h), pos - {keys[hole]});
      occupied[i] := false;
      values[i] := NULL;
      size := size - 1;
      hist, pos := h, p;
      assert Cells() == c;
      RepresentsIsBuild(c, pos, hist);
    }

    // What the forward walk starts from: a free slot that will stop it, and the list it works towards.
    lemma StartHole(hole: nat) returns (e: nat, h: seq<Entry>)
      requires Valid() && hole < capacity && occupied[hole] && size < capacity
      ensures e < capacity && !occupied[e]
      ensures h == Without(hist, keys[hole]) && |h| == |hist| - 1 && Ordered(h) && Below(Index(h), clock)
      ensures Shifting(Cells()[hole := Empty], pos - {keys[hole]}, Index(h), hole, hole)
    {
      var c := Cells();
      FreeSlotIff(c, pos, hist);
      e :| 0 <= e < capacity && c[e].Empty?;
      h := Without(hist, keys[hole]);
      assert c[hole] == Full(keys[hole], values[hole]);
      ShiftStart(c, pos, Index(hist), hole);
      WithoutIndex(hist, keys[hole]);
    }

    // The forward walk: ends with the hole in a slot that no key needs on its path.
    method WalkForward(hole: nat, ghost e: nat, ghost m: map<int, Entry>, ghost p0: map<int, nat>)
      returns (i: nat, ghost c: seq<Cell>, ghost p: map<int, nat>)
      requires Shape() && hole < capacity && e < capacity && e != hole && !occupied[e]
      requires Shifting(Cells()[hole := Empty], p0, m, hole, hole)
      modifies keys, values, occupied
      ensures i < capacity && c == Cells()[i := Empty] && Represents(c, p, m)
      ensures exists n: nat :: Walked(old(Cells()), hole, n) == Stopped(Cells(), i)
    {
      hide Represents, Shifting, OnPath, Slot, MoveBack, Walked;
      ghost var turns: nat := 0;
      WalkStart(Cells(), hole);
      c, p := Cells()[hole := Empty], p0;
      i := hole;
      var j := hole;
      while true
        invariant 0 <= i < capacity && 0 <= j < capacity
        invariant c == Cells()[i := Empty] && c[e].Empty? && Shifting(c, p, m, i, j)
        invariant Dist(i, j, capacity) < Dist(i, e, capacity)
        invariant Walked(old(Cells()), hole, turns) == Walking(Cells(), i, j)
        decreases Dist(j, e, capacity)
      {
        ghost var j0 := j;
        j := Next(j, capacity);
        WalkOn(old(Cells()), hole, turns, Cells(), i, j0);
        turns := turns + 1;
        if !occupied[j] {
          assert Walked(old(Cells()), hole, turns) == Stopped(Cells(), i);
          ShiftDone(c, p, m, i, j0);
          return;
        }
        assert c[j] == Full(keys[j], values[j]);
        MoveBackIsOnPath(capacity, keys[j], i, j);
        ghost var c', p', i' := ShiftStep(c, p, m, i, j0, e);
        if MoveBack(capacity, keys[j], i, j) {
          PullBack(i, j);
          i := j;
        }
        c, p := c', p';
      }
    }

    // Copy slot `j` over slot `i`.
    method PullBack(i: nat, j: nat)
      requires Shape() && i < capacity && j < capacity && occupied[j]
      modifies keys, values, occupied
      ensures Cells() == old(Cells())[i := old(Cells())[j]]
    {
      keys[i] := keys[j];
      values[i] := values[j];
      occupied[i] := true;
    }
  }
}
