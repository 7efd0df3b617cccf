/** The pool allocator of evas_mempool.c.

    Addresses are integers, NULL is 0.  Memory is a map from addresses to words; the allocator
    writes its free lists into the slots nobody uses.  The blocks that malloc returns for new
    pools are parameters, required not to overlap the pools in use. */
module Mempool {
  import opened Basics

  const NULL: int := 0
  /** sizeof (void *) and sizeof (Pool) on a 64-bit machine. */
  const WORD: int := 8
  const HEADER: int := 32

  /** item_size rounded up to whole words. */
  function ItemAlloc(itemSize: int): (r: int)
    requires itemSize >= 1
    ensures itemSize <= r < itemSize + WORD && r % WORD == 0
  {
    ((itemSize + WORD - 1) / WORD) * WORD
  }

  /** The shape shared by all pools of one allocator. */
  datatype Shape = Shape(itemAlloc: int, poolSize: int)
  {
    ghost predicate Ok() { itemAlloc > 0 && poolSize >= 1 }

    function Slot(addr: int, i: int): int { addr + HEADER + i * itemAlloc }

    function Bytes(): int { poolSize * itemAlloc }

    ghost function Slots(addr: int): set<int> {
      set i | 0 <= i < poolSize :: Slot(addr, i)
    }

    /** Whether x lies in the memory of the pool at addr, as evas_mempool_free tests it. */
    predicate InPool(addr: int, x: int) {
      addr + HEADER <= x < addr + HEADER + Bytes()
    }

    /** The block of the pool at addr, header included. */
    predicate InBlock(addr: int, x: int) {
      addr <= x < addr + HEADER + Bytes()
    }
  }

  class Pool {
    const addr: int
    var usage: int
    var base: int
    var prev: Pool?
    var next: Pool?
    /** The free slots in list order, and the slots handed out. */
    ghost var free: seq<int>
    ghost var live: set<int>

    constructor (addr: int)
      ensures this.addr == addr && usage == 0 && base == NULL && prev == null && next == null && free == []
              && live == {}
    {
      this.addr := addr;
      usage, base, prev, next, free, live := 0, NULL, null, null, [], {};
    }

    ghost predicate Ok(shape: Shape, mem: map<int, int>)
      reads `usage, `base, `free, `live
    {
      PoolOk(shape, mem, addr, usage, base, free, live)
    }
  }

  /** base heads a list threaded through the free slots; free and live slots make up the pool. */
  ghost predicate PoolOk(shape: Shape, mem: map<int, int>, addr: int, usage: int, base: int, free: seq<int>,
                         live: set<int>) {
    && addr > 0
    && Threaded(mem, base, free)
    && NoDup(free)
    && SetOf(free) !! live
    && SetOf(free) + live == shape.Slots(addr)
    && usage == |live| && usage + |free| == shape.poolSize
  }

  ghost function SetOf(s: seq<int>): set<int> {
    set x | x in s
  }

  lemma ConsFacts(x: int, s: seq<int>)
    ensures SetOf([x] + s) == SetOf(s) + {x}
    ensures NoDup([x] + s) <==> NoDup(s) && x !in SetOf(s)
  {
    var t := [x] + s;
    assert t[0] == x && forall i | 0 <= i < |s| :: t[i + 1] == s[i];
    if NoDup(t) {
      forall i | 0 <= i < |s| ensures s[i] != x { assert t[i + 1] != t[0]; }
    }
    if NoDup(s) && x !in SetOf(s) {
      forall i, j | 0 <= i < j < |t| ensures t[i] != t[j] {
        assert t[j] == s[j - 1];
        if i > 0 { assert t[i] == s[i - 1]; }
      }
    }
  }

  /** base is the first of the free slots, and each free slot holds the address of the next. */
  ghost predicate Threaded(mem: map<int, int>, base: int, free: seq<int>) {
    && base == (if free == [] then NULL else free[0])
    && (forall i {:trigger free[i]} | 0 <= i < |free| :: free[i] != NULL && free[i] in mem)
    && (forall i {:trigger mem[free[i]]} | 0 <= i < |free| :: mem[free[i]] == NextFree(free, i))
  }

  ghost function NextFree(free: seq<int>, i: int): int
    requires 0 <= i < |free|
  {
    if i + 1 < |free| then free[i + 1] else NULL
  }

  /** The pool at position i of the list, null one past either end. */
  ghost function At(s: seq<Pool>, i: int): Pool? {
    if 0 <= i < |s| then s[i] else null
  }

  ghost predicate Linked(s: seq<Pool>)
    reads s`next, s`prev
  {
    && (forall i, j | 0 <= i < j < |s| :: s[i] != s[j])
    && (forall i {:trigger s[i].next} | 0 <= i < |s| :: s[i].next == At(s, i + 1))
    && (forall i {:trigger s[i].prev} | 0 <= i < |s| :: s[i].prev == At(s, i - 1))
  }

  // ---------- arithmetic of slots ----------

  lemma MulGap(a: int, b: int, m: int)
    requires a < b && m > 0
    ensures a * m + m <= b * m
  {
    assert (b - a - 1) * m >= 0;
    assert b * m == a * m + m + (b - a - 1) * m;
  }

  lemma SlotInPool(shape: Shape, addr: int, i: int)
    requires shape.Ok() && 0 <= i < shape.poolSize
    ensures shape.InPool(addr, shape.Slot(addr, i)) && shape.InBlock(addr, shape.Slot(addr, i))
    ensures shape.Slot(addr, i) + shape.itemAlloc <= addr + HEADER + shape.Bytes()
  {
    MulGap(i, shape.poolSize, shape.itemAlloc);
    assert i * shape.itemAlloc >= 0;
  }

  /** A byte of one slot is never the start of another. */
  lemma SlotsApart(shape: Shape, addr: int, i: int, j: int, x: int)
    requires shape.Ok() && shape.Slot(addr, i) <= x < shape.Slot(addr, i) + shape.itemAlloc && x == shape.Slot(addr, j)
    ensures i == j
  {
    if i < j {
      MulGap(i, j, shape.itemAlloc);
    } else if j < i {
      MulGap(j, i, shape.itemAlloc);
    }
  }

  // ---------- the pool list ----------

  /** The pool list as the allocator holds it. */
  ghost predicate ListOf(s: seq<Pool>, first: Pool?, last: Pool?)
    reads s`next, s`prev
  {
    Linked(s) && first == At(s, 0) && last == At(s, |s| - 1)
  }

  /** Put a new pool in front: the end of the allocation branch of malloc. */
  method PushFront(p: Pool, first0: Pool?, last0: Pool?, ghost s: seq<Pool>) returns (first: Pool, last: Pool)
    requires ListOf(s, first0, last0) && p !in s
    modifies p`next, p`prev, s`prev
    ensures ListOf([p] + s, first, last)
  {
    p.prev := null;
    p.next := first0;
    if p.next != null {
      p.next.prev := p;
    }
    last := if last0 == null then p else last0;
    first := p;
    ghost var r := [p] + s;
    assert forall i | 0 <= i < |s| :: r[i + 1] == s[i];
  }

  /** Move the first pool, just filled up, to the end. */
  method MoveFirstToEnd(p: Pool, first0: Pool?, last0: Pool?, ghost s: seq<Pool>) returns (first: Pool?, last: Pool?)
    requires ListOf(s, first0, last0) && |s| > 1 && p == s[0]
    modifies s`next, s`prev
    ensures ListOf(s[1..] + [p], first, last)
  {
    first, last := first0, last0;
    if p.prev != null {
      assert false;
    } else {
      first := p.next;
    }
    p.next.prev := p.prev;
    last.next := p;
    p.prev := last;
    p.next := null;
    last := p;
    ghost var r := s[1..] + [p];
    assert forall i | 0 <= i < |s| - 1 :: r[i] == s[i + 1];
  }

  /** s without its element k. */
  ghost function Without(s: seq<Pool>, k: nat): seq<Pool>
    requires k < |s|
  {
    s[..k] + s[k + 1..]
  }

  lemma WithoutAt(s: seq<Pool>, k: nat, i: nat)
    requires k < |s| && i < |s| - 1
    ensures |Without(s, k)| == |s| - 1 && Without(s, k)[i] == s[if i < k then i else i + 1]
  {
  }

  /** The chain that skips s[k]. */
  lemma UnlinkedChain(s: seq<Pool>, k: nat)
    requires k < |s| && forall i, j | 0 <= i < j < |s| :: s[i] != s[j]
    requires forall i {:trigger s[i].next} | 0 <= i < |s| && i != k ::
               s[i].next == At(s, if i == k - 1 then k + 1 else i + 1)
    requires forall i {:trigger s[i].prev} | 0 <= i < |s| && i != k ::
               s[i].prev == At(s, if i == k + 1 then k - 1 else i - 1)
    ensures Linked(Without(s, k))
  {
    var r := Without(s, k);
    forall i | 0 <= i < |r| ensures r[i].next == At(r, i + 1) && r[i].prev == At(r, i - 1) {
      WithoutAt(s, k, i);
      if i + 1 < |r| { WithoutAt(s, k, i + 1); }
      if i > 0 { WithoutAt(s, k, i - 1); }
    }
    forall i, j | 0 <= i < j < |r| ensures r[i] != r[j] {
      WithoutAt(s, k, i);
      WithoutAt(s, k, j);
    }
  }

  lemma WithoutEnds(s: seq<Pool>, k: nat)
    requires k < |s|
    ensures At(Without(s, k), 0) == At(s, if k == 0 then 1 else 0)
    ensures At(Without(s, k), |s| - 2) == At(s, if k == |s| - 1 then |s| - 2 else |s| - 1)
  {
    if |s| > 1 {
      WithoutAt(s, k, 0);
      WithoutAt(s, k, |s| - 2);
    }
  }

  /** Take pool k out of the list: both branches of free start like this. */
  method Unlink(p: Pool, first0: Pool?, last0: Pool?, ghost s: seq<Pool>, ghost k: nat)
    returns (first: Pool?, last: Pool?)
    requires ListOf(s, first0, last0) && k < |s| && s[k] == p
    modifies s`next, s`prev
    ensures ListOf(Without(s, k), first, last)
  {
    first, last := first0, last0;
    if p.prev != null {
      p.prev.next := p.next;
    }
    if p.next != null {
      p.next.prev := p.prev;
    }
    if last == p {
      last := p.prev;
    }
    if first == p {
      first := p.next;
    }
    UnlinkedChain(s, k);
    WithoutEnds(s, k);
  }

  // ---------- memory ----------

  /** Memory outside the block at addr is as it was. */
  ghost predicate SameOutside(shape: Shape, addr: int, m: map<int, int>, m': map<int, int>) {
    forall x | !shape.InBlock(addr, x) :: (x in m' <==> x in m) && (x in m ==> m'[x] == m[x])
  }

  lemma ThreadedKept(m: map<int, int>, m': map<int, int>, base: int, free: seq<int>)
    requires Threaded(m, base, free)
    requires forall x | x in free :: x in m' && m'[x] == m[x]
    ensures Threaded(m', base, free)
  {
  }

  /** Taking the first free slot. */
  lemma ThreadedTail(m: map<int, int>, base: int, free: seq<int>)
    requires Threaded(m, base, free) && free != []
    ensures base in m && Threaded(m, m[base], free[1..])
  {
    var t := free[1..];
    forall i | 0 <= i < |t| ensures t[i] != NULL && t[i] in m && m[t[i]] == NextFree(t, i) {
      assert t[i] == free[i + 1] && m[free[i + 1]] == NextFree(free, i + 1);
    }
    assert m[free[0]] == NextFree(free, 0);
  }

  /** Putting a slot back in front. */
  lemma ThreadedPush(m: map<int, int>, base: int, free: seq<int>, x: int)
    requires Threaded(m, base, free) && x !in free && x != NULL
    ensures Threaded(m[x := base], x, [x] + free)
  {
    var m', t := m[x := base], [x] + free;
    forall i | 0 <= i < |t| ensures t[i] != NULL && t[i] in m' && m'[t[i]] == NextFree(t, i) {
      if i > 0 {
        assert t[i] == free[i - 1] && t[i] in free && m[free[i - 1]] == NextFree(free, i - 1);
      }
    }
  }

  ghost function FirstSlots(shape: Shape, addr: int, n: nat): (r: seq<int>)
    ensures |r| == n && forall i | 0 <= i < n :: r[i] == shape.Slot(addr, i)
  {
    seq(n, i => shape.Slot(addr, i))
  }

  lemma SlotsDistinct(shape: Shape, addr: int, i: int, j: int)
    requires shape.Ok() && i < j
    ensures shape.Slot(addr, i) < shape.Slot(addr, j)
  {
    MulGap(i, j, shape.itemAlloc);
  }

  /** Each of the first n slots of a new pool holds the address of the next one. */
  ghost predicate Chained(shape: Shape, addr: int, mem: map<int, int>, n: int) {
    forall k | 0 <= k < n :: shape.Slot(addr, k) in mem && mem[shape.Slot(addr, k)] == shape.Slot(addr, k + 1)
  }

  lemma ChainNone(shape: Shape, addr: int, mem: map<int, int>)
    ensures Chained(shape, addr, mem, 0) && SameOutside(shape, addr, mem, mem)
  {
  }

  lemma ChainOne(shape: Shape, addr: int, mem0: map<int, int>, mem: map<int, int>, i: nat)
    requires shape.Ok() && i < shape.poolSize && Chained(shape, addr, mem, i) && SameOutside(shape, addr, mem0, mem)
    ensures var m := mem[shape.Slot(addr, i) := shape.Slot(addr, i) + shape.itemAlloc];
      Chained(shape, addr, m, i + 1) && SameOutside(shape, addr, mem0, m)
    ensures shape.Slot(addr, i) + shape.itemAlloc == shape.Slot(addr, i + 1)
  {
    SlotInPool(shape, addr, i);
    assert shape.Slot(addr, i) + shape.itemAlloc == shape.Slot(addr, i + 1);
    forall k | 0 <= k < i ensures shape.Slot(addr, k) != shape.Slot(addr, i) { SlotsDistinct(shape, addr, k, i); }
  }

  lemma EndChain(shape: Shape, addr: int, mem0: map<int, int>, mem: map<int, int>)
    requires shape.Ok() && Chained(shape, addr, mem, shape.poolSize - 1) && SameOutside(shape, addr, mem0, mem)
    ensures var n := shape.poolSize - 1;
      var m := mem[shape.Slot(addr, n) := NULL]; Chained(shape, addr, m, n) && SameOutside(shape, addr, mem0, m)
  {
    var n := shape.poolSize - 1;
    SlotInPool(shape, addr, n);
    forall k | 0 <= k < n ensures shape.Slot(addr, k) != shape.Slot(addr, n) { SlotsDistinct(shape, addr, k, n); }
  }

  /** _evas_mp_pool_new: every slot of the new pool is free, in address order. */
  method PoolNew(shape: Shape, addr: int, mem0: map<int, int>) returns (p: Pool, mem: map<int, int>)
    requires shape.Ok() && addr > 0
    ensures fresh(p) && p.addr == addr && p.prev == null && p.next == null
    ensures p.free == FirstSlots(shape, addr, shape.poolSize) && p.live == {} && p.usage == 0 && p.base != NULL
    ensures p.Ok(shape, mem)
    ensures SameOutside(shape, addr, mem0, mem)
  {
    hide PoolOk, SameOutside, Chained;
    p := new Pool(addr);
    mem := mem0;
    ChainNone(shape, addr, mem);
    var ptr := addr + HEADER;
    p.base := ptr;
    ghost var free := FirstSlots(shape, addr, shape.poolSize);
    for i := 0 to shape.poolSize - 1
      invariant ptr == shape.Slot(addr, i)
      invariant Chained(shape, addr, mem, i) && SameOutside(shape, addr, mem0, mem)
      invariant p.usage == 0 && p.live == {} && p.base == shape.Slot(addr, 0) && p.prev == null && p.next == null
    {
      ChainOne(shape, addr, mem0, mem, i);
      mem := mem[ptr := ptr + shape.itemAlloc];
      ptr := ptr + shape.itemAlloc;
    }
    EndChain(shape, addr, mem0, mem);
    mem := mem[ptr := NULL];
    p.free := free;
    NewPoolOk(shape, addr, p, mem);
  }

  lemma NewPoolOk(shape: Shape, addr: int, p: Pool, mem: map<int, int>)
    requires shape.Ok() && addr > 0 && p.addr == addr && p.usage == 0 && p.live == {}
    requires p.base == shape.Slot(addr, 0) && p.free == FirstSlots(shape, addr, shape.poolSize)
    requires Chained(shape, addr, mem, shape.poolSize - 1)
    requires var l := shape.Slot(addr, shape.poolSize - 1); l in mem && mem[l] == NULL
    ensures p.Ok(shape, mem)
  {
    var free := p.free;
    forall k | 0 <= k < |free| ensures free[k] in mem && mem[free[k]] == NextFree(free, k) {
      if k + 1 < |free| { assert shape.Slot(addr, k) in mem; }
    }
    forall i, j | 0 <= i < j < |free| ensures free[i] != free[j] { SlotsDistinct(shape, addr, i, j); }
    forall i | 0 <= i < |free| ensures free[i] != NULL { SlotInPool(shape, addr, i); }
    forall x ensures x in SetOf(free) <==> x in shape.Slots(addr) {
      if x in free {
        var i :| 0 <= i < |free| && free[i] == x;
        assert x == shape.Slot(addr, i);
      }
      if x in shape.Slots(addr) {
        var i :| 0 <= i < shape.poolSize && x == shape.Slot(addr, i);
        assert free[i] == x;
      }
    }
    assert SetOf(free) == shape.Slots(addr);
  }

  /** The next free slot of a pool: it leaves the free list and counts as in use. */
  method TakeSlot(shape: Shape, p: Pool, mem: map<int, int>) returns (x: int)
    requires shape.Ok() && p.Ok(shape, mem) && p.base != NULL
    modifies p`base, p`usage, p`free, p`live
    ensures old(p.free) != [] && p.Ok(shape, mem)
    ensures x == old(p.base) && p.free == old(p.free)[1..] && p.live == old(p.live) + {x} && x !in old(p.live)
    ensures p.usage == old(p.usage) + 1
  {
    hide PoolOk, Threaded, NoDup, SetOf, Shape.Slots;
    x := p.base;
    TakeKeepsOk(shape, mem, p.addr, p.usage, p.base, p.free, p.live);
    p.base := mem[x];
    p.usage := p.usage + 1;
    p.free := p.free[1..];
    p.live := p.live + {x};
  }

  lemma TakeKeepsOk(shape: Shape, mem: map<int, int>, addr: int, usage: int, base: int, free: seq<int>, live: set<int>)
    requires PoolOk(shape, mem, addr, usage, base, free, live) && base != NULL
    ensures free != [] && base == free[0] && base in mem && base !in live
    ensures PoolOk(shape, mem, addr, usage + 1, mem[base], free[1..], live + {base})
  {
    hide NoDup, SetOf, Shape.Slots;
    var t := free[1..];
    assert free == [base] + t;
    ThreadedTail(mem, base, free);
    ConsFacts(base, t);
    hide Threaded;
    MoveOver(SetOf(t), base, live);
  }

  lemma MoveOver(a: set<int>, x: int, b: set<int>)
    requires a + {x} !! b && x !in a
    ensures a !! b + {x} && a + (b + {x}) == (a + {x}) + b && |b + {x}| == |b| + 1
  {
  }

  lemma MoveBack(a: set<int>, x: int, b: set<int>)
    requires a !! b && x in b
    ensures a + {x} !! b - {x} && (a + {x}) + (b - {x}) == a + b && |b - {x}| == |b| - 1 && x !in a
  {
  }

  lemma GiveKeepsOk(shape: Shape, mem: map<int, int>, addr: int, usage: int, base: int, free: seq<int>,
                    live: set<int>, x: int)
    requires PoolOk(shape, mem, addr, usage, base, free, live) && x in live && x != NULL
    ensures PoolOk(shape, mem[x := base], addr, usage - 1, x, [x] + free, live - {x})
  {
    hide NoDup, SetOf, Shape.Slots, Threaded;
    MoveBack(SetOf(free), x, live);
    InSetOf(free, x);
    ConsFacts(x, free);
    ThreadedPush(mem, base, free, x);
  }

  lemma InSetOf(s: seq<int>, x: int)
    ensures x in SetOf(s) <==> x in s
  {
  }

  /** A slot goes back to the front of its pool's free list. */
  method GiveSlot(shape: Shape, p: Pool, x: int, mem0: map<int, int>) returns (mem: map<int, int>)
    requires shape.Ok() && p.Ok(shape, mem0) && x in p.live
    modifies p`base, p`usage, p`free, p`live
    ensures p.Ok(shape, mem) && mem == mem0[x := old(p.base)]
    ensures p.free == [x] + old(p.free) && p.live == old(p.live) - {x} && p.usage == old(p.usage) - 1
  {
    SlotNotNull(shape, p, x, mem0);
    GiveKeepsOk(shape, mem0, p.addr, p.usage, p.base, p.free, p.live, x);
    hide PoolOk;
    mem := mem0[x := p.base];
    p.base := x;
    p.usage := p.usage - 1;
    p.free := [x] + p.free;
    p.live := p.live - {x};
  }

  lemma SlotNotNull(shape: Shape, p: Pool, x: int, mem: map<int, int>)
    requires shape.Ok() && p.Ok(shape, mem) && x in p.live
    ensures x != NULL && x in shape.Slots(p.addr) && shape.InPool(p.addr, x)
  {
    assert x in shape.Slots(p.addr);
    var i :| 0 <= i < shape.poolSize && x == shape.Slot(p.addr, i);
    SlotInPool(shape, p.addr, i);
  }

  // ---------- all pools ----------

  ghost predicate RangesApart(shape: Shape, a: int, b: int) {
    a + HEADER + shape.Bytes() <= b || b + HEADER + shape.Bytes() <= a
  }

  /** The blocks of different pools do not overlap. */
  ghost predicate Apart(shape: Shape, s: seq<Pool>) {
    forall p, q | p in s && q in s && p != q :: RangesApart(shape, p.addr, q.addr)
  }

  ghost predicate PoolsOk(shape: Shape, mem: map<int, int>, s: seq<Pool>)
    reads s`usage, s`base, s`free, s`live
  {
    forall p | p in s :: p.Ok(shape, mem)
  }

  ghost predicate NoneEmpty(s: seq<Pool>)
    reads s`usage
  {
    forall p | p in s :: p.usage >= 1
  }

  /** Every pool with a free slot comes before every full pool. */
  ghost predicate FullLast(s: seq<Pool>)
    reads s`free
  {
    forall i, j | 0 <= i < j < |s| :: s[j].free != [] ==> s[i].free != []
  }

  /** The slots in use, of all pools. */
  ghost function LiveOf(s: seq<Pool>): set<int>
    reads s`live
  {
    set p, x | p in s && x in p.live :: x
  }

  lemma LiveInOnePool(shape: Shape, mem: map<int, int>, s: seq<Pool>, p: Pool, q: Pool, x: int)
    requires shape.Ok() && PoolsOk(shape, mem, s) && Apart(shape, s) && p in s && q in s
    requires x in shape.Slots(p.addr) && (x in q.live || shape.InPool(q.addr, x))
    ensures p == q
  {
    var i :| 0 <= i < shape.poolSize && x == shape.Slot(p.addr, i);
    SlotInPool(shape, p.addr, i);
    if x in q.live {
      assert q.Ok(shape, mem);
      assert x in shape.Slots(q.addr);
      var j :| 0 <= j < shape.poolSize && x == shape.Slot(q.addr, j);
      SlotInPool(shape, q.addr, j);
    }
  }

  /** The slots in use outside p. */
  ghost function LiveElsewhere(s: seq<Pool>, p: Pool): set<int>
    reads (set q | q in s && q != p)`live
  {
    set q, y | q in s && q != p && y in q.live :: y
  }

  lemma LiveParts(s: seq<Pool>, p: Pool)
    requires p in s
    ensures LiveOf(s) == LiveElsewhere(s, p) + p.live
  {
    forall y ensures y in LiveOf(s) <==> y in LiveElsewhere(s, p) + p.live {
      if y in LiveOf(s) {
        var q :| q in s && y in q.live;
        assert q != p ==> y in LiveElsewhere(s, p);
      } else {
        assert forall q | q in s :: y !in q.live;
      }
    }
  }

  /** Memory in use by the allocator's clients: all of every live slot. */
  ghost predicate InUse(shape: Shape, live: set<int>, a: int) {
    exists x | x in live :: x <= a < x + shape.itemAlloc
  }

  /** The allocation branch of malloc: a new pool, all free, in front. */
  method AddPool(shape: Shape, addr: int, mem0: map<int, int>, first0: Pool?, last0: Pool?, ghost s: seq<Pool>)
    returns (p: Pool, first: Pool, last: Pool, mem: map<int, int>)
    requires shape.Ok() && addr > 0 && forall q | q in s :: q.free == [] && RangesApart(shape, addr, q.addr)
    requires ListOf(s, first0, last0) && PoolsOk(shape, mem0, s) && Apart(shape, s)
    modifies s`prev
    ensures fresh(p) && p.addr == addr && p.live == {} && p.usage == 0 && p.base != NULL
    ensures ListOf([p] + s, first, last) && PoolsOk(shape, mem, [p] + s) && Apart(shape, [p] + s) && FullLast([p] + s)
    ensures LiveOf([p] + s) == LiveOf(s) && SameOutside(shape, addr, mem0, mem)
  {
    hide PoolOk, Threaded, Shape.Slots, SetOf, NoDup, Linked, SameOutside;
    p, mem := PoolNew(shape, addr, mem0);
    AddedPoolsOk(shape, addr, mem0, mem, s, p);
    AddedLive(p, s);
    AddedFront(shape, p, s);
    hide Apart, FullLast, PoolsOk, LiveOf;
    first, last := PushFront(p, first0, last0, s);
  }

  lemma AddedFront(shape: Shape, p: Pool, s: seq<Pool>)
    requires Apart(shape, s) && p !in s && forall q | q in s :: q.free == [] && RangesApart(shape, p.addr, q.addr)
    ensures Apart(shape, [p] + s) && FullLast([p] + s)
  {
    var r := [p] + s;
    assert forall i | 0 <= i < |s| :: r[i + 1] == s[i];
    forall j | 0 < j < |r| ensures r[j].free == [] {
      assert r[j] == s[j - 1] && s[j - 1] in s;
    }
  }

  lemma AddedPoolsOk(shape: Shape, addr: int, m: map<int, int>, m': map<int, int>, s: seq<Pool>, p: Pool)
    requires shape.Ok() && PoolsOk(shape, m, s) && p.Ok(shape, m') && p.addr == addr && SameOutside(shape, addr, m, m')
    requires forall q | q in s :: RangesApart(shape, addr, q.addr)
    ensures PoolsOk(shape, m', [p] + s)
  {
    forall q | q in [p] + s ensures q.Ok(shape, m') {
      if q in s { KeptPoolOk(shape, addr, m, m', q); }
    }
  }

  lemma KeptPoolOk(shape: Shape, addr: int, m: map<int, int>, m': map<int, int>, q: Pool)
    requires shape.Ok() && q.Ok(shape, m) && SameOutside(shape, addr, m, m') && RangesApart(shape, addr, q.addr)
    ensures q.Ok(shape, m')
  {
    forall x | x in q.free ensures x in m' && m'[x] == m[x] {
      assert x in SetOf(q.free);
      FreeInBlock(shape, m, q, x);
      assert exists i | 0 <= i < |q.free| :: q.free[i] == x;
    }
    hide SetOf, NoDup, Shape.Slots;
    ThreadedKept(m, m', q.base, q.free);
  }

  lemma FreeInBlock(shape: Shape, mem: map<int, int>, q: Pool, x: int)
    requires shape.Ok() && q.Ok(shape, mem) && x in SetOf(q.free)
    ensures x in shape.Slots(q.addr) && shape.InPool(q.addr, x)
  {
    assert x in shape.Slots(q.addr);
    var i :| 0 <= i < shape.poolSize && x == shape.Slot(q.addr, i);
    SlotInPool(shape, q.addr, i);
  }

  lemma AddedLive(p: Pool, s: seq<Pool>)
    requires p.live == {}
    ensures LiveOf([p] + s) == LiveOf(s)
  {
    assert forall q | q in [p] + s :: q == p || q in s;
    assert forall q | q in s :: q in [p] + s;
  }

  /** Everything Valid says about the list of pools, except that each has a slot in use. */
  ghost predicate Good(shape: Shape, mem: map<int, int>, s: seq<Pool>, first: Pool?, last: Pool?)
    reads s
  {
    && shape.Ok() && ListOf(s, first, last)
    && PoolsOk(shape, mem, s) && Apart(shape, s) && FullLast(s)
  }

  lemma SlotOfOnePool(shape: Shape, a: int, b: int, x: int)
    requires shape.Ok() && RangesApart(shape, a, b) && x in shape.Slots(a)
    ensures x !in shape.Slots(b)
  {
    var i :| 0 <= i < shape.poolSize && x == shape.Slot(a, i);
    SlotInPool(shape, a, i);
    if x in shape.Slots(b) {
      var j :| 0 <= j < shape.poolSize && x == shape.Slot(b, j);
      SlotInPool(shape, b, j);
    }
  }

  /** A free slot of one pool is in use in none. */
  lemma FreeNotLive(shape: Shape, mem: map<int, int>, s: seq<Pool>, p: Pool, x: int)
    requires shape.Ok() && PoolsOk(shape, mem, s) && Apart(shape, s) && p in s && x in SetOf(p.free)
    ensures x !in LiveOf(s)
  {
    assert p.Ok(shape, mem);
    assert x in shape.Slots(p.addr);
    forall q | q in s ensures x !in q.live {
      assert q.Ok(shape, mem);
      if q != p {
        SlotOfOnePool(shape, p.addr, q.addr, x);
      }
    }
  }

  /** TakeSlot, seen from the whole list. */
  method TakeSlotOf(shape: Shape, p: Pool, mem: map<int, int>, ghost s: seq<Pool>) returns (x: int)
    requires shape.Ok() && PoolsOk(shape, mem, s) && Apart(shape, s) && p in s && p.base != NULL
    modifies p`base, p`usage, p`free, p`live
    ensures PoolsOk(shape, mem, s) && LiveOf(s) == old(LiveOf(s)) + {x} && x !in old(LiveOf(s))
    ensures p.free == old(p.free)[1..] && p.usage == old(p.usage) + 1 && (p.base == NULL <==> p.free == [])
  {
    hide PoolOk, LiveOf, PoolsOk, Apart;
    TakeReady(shape, mem, s, p);
    LiveParts(s, p);
    x := TakeSlot(shape, p, mem);
    LiveParts(s, p);
    OthersOk(shape, mem, s, p);
    BaseNull(shape, mem, p);
  }

  ghost predicate RestOk(shape: Shape, mem: map<int, int>, s: seq<Pool>, p: Pool)
    reads (set q | q in s && q != p)
  {
    forall q | q in s && q != p :: q.Ok(shape, mem)
  }

  lemma TakeReady(shape: Shape, mem: map<int, int>, s: seq<Pool>, p: Pool)
    requires shape.Ok() && PoolsOk(shape, mem, s) && Apart(shape, s) && p in s && p.base != NULL
    ensures p.Ok(shape, mem) && RestOk(shape, mem, s, p) && p.base !in LiveOf(s)
  {
    assert p.Ok(shape, mem) && p.base in SetOf(p.free);
    FreeNotLive(shape, mem, s, p, p.base);
  }

  lemma OthersOk(shape: Shape, mem: map<int, int>, s: seq<Pool>, p: Pool)
    requires p.Ok(shape, mem) && RestOk(shape, mem, s, p)
    ensures PoolsOk(shape, mem, s)
  {
  }

  lemma BaseNull(shape: Shape, mem: map<int, int>, p: Pool)
    requires p.Ok(shape, mem)
    ensures p.base == NULL <==> p.free == []
  {
  }

  /** Malloc's work on the pool it has found: take its first free slot; if that was the last one, move
      the pool to the end. */
  method TakeFromFirst(shape: Shape, p: Pool, mem: map<int, int>, first0: Pool?, last0: Pool?, ghost s: seq<Pool>)
    returns (x: int, first: Pool?, last: Pool?, ghost r: seq<Pool>)
    requires Good(shape, mem, s, first0, last0) && |s| > 0 && p == s[0] && p.base != NULL
    modifies p`base, p`usage, p`free, p`live, s`next, s`prev
    ensures Good(shape, mem, r, first, last)
    ensures LiveOf(r) == old(LiveOf(s)) + {x} && x !in old(LiveOf(s))
    ensures (forall q | q in r :: q in s) && |r| == |s|
    ensures p.usage == old(p.usage) + 1
  {
    hide PoolOk, PoolsOk, LiveOf, Apart, Linked, FullLast, TailFullLast;
    FirstDiffers(s);
    first, last, r := first0, last0, s;
    x := TakeSlotOf(shape, p, mem, s);
    if p.base == NULL && p.next != null {
      Rotated(shape, mem, s);
      r := s[1..] + [p];
      LongerThanOne(s);
      first, last := MoveFirstToEnd(p, first, last, s);
    } else {
      AloneOrFree(s);
    }
  }

  lemma FirstDiffers(s: seq<Pool>)
    requires Linked(s) && FullLast(s) && |s| > 0
    ensures s[0] !in s[1..] && TailFullLast(s)
  {
  }

  /** FullLast without the first pool. */
  ghost predicate TailFullLast(s: seq<Pool>)
    requires |s| > 0
    reads s[1..]`free
  {
    FullLast(s[1..])
  }

  lemma LongerThanOne(s: seq<Pool>)
    requires Linked(s) && |s| > 0 && s[0].next != null
    ensures |s| > 1
  {
  }

  lemma AloneOrFree(s: seq<Pool>)
    requires Linked(s) && |s| > 0 && (s[0].free != [] || s[0].next == null)
    requires TailFullLast(s)
    ensures FullLast(s)
  {
    assert s[0].next == At(s, 1);
    assert forall i | 0 < i < |s| :: s[i] == s[1..][i - 1];
  }

  /** s and r have the same pools. */
  lemma SamePools(shape: Shape, mem: map<int, int>, s: seq<Pool>, r: seq<Pool>)
    requires forall q :: q in s <==> q in r
    ensures PoolsOk(shape, mem, s) <==> PoolsOk(shape, mem, r)
    ensures Apart(shape, s) <==> Apart(shape, r)
    ensures LiveOf(s) == LiveOf(r)
  {
  }

  lemma Rotated(shape: Shape, mem: map<int, int>, s: seq<Pool>)
    requires |s| > 0 && s[0].free == [] && TailFullLast(s)
    ensures var r := s[1..] + [s[0]];
      && (forall q :: q in s <==> q in r) && FullLast(r)
      && (PoolsOk(shape, mem, s) ==> PoolsOk(shape, mem, r)) && (Apart(shape, s) ==> Apart(shape, r))
      && LiveOf(s) == LiveOf(r)
  {
    var r := s[1..] + [s[0]];
    assert s == [s[0]] + s[1..];
    assert forall i | 0 <= i < |s| - 1 :: r[i] == s[i + 1];
    SamePools(shape, mem, s, r);
  }

  // ---------- free ----------

  /** Writing into a slot of p does not disturb the other pools' free lists. */
  lemma RestKeeps(shape: Shape, mem: map<int, int>, s: seq<Pool>, p: Pool, x: int, v: int)
    requires shape.Ok() && PoolsOk(shape, mem, s) && Apart(shape, s) && p in s && x in shape.Slots(p.addr)
    ensures RestOk(shape, mem[x := v], s, p)
  {
    forall q | q in s && q != p ensures q.Ok(shape, mem[x := v]) {
      assert q.Ok(shape, mem);
      SlotOfOnePool(shape, p.addr, q.addr, x);
      assert x !in SetOf(q.free);
      RestKeepsOne(shape, mem, q, x, v);
    }
  }

  lemma RestKeepsOne(shape: Shape, mem: map<int, int>, q: Pool, x: int, v: int)
    requires q.Ok(shape, mem) && x !in SetOf(q.free)
    ensures q.Ok(shape, mem[x := v])
  {
    InSetOf(q.free, x);
    hide Shape.Slots, SetOf, NoDup;
    assert forall y | y in q.free :: exists i | 0 <= i < |q.free| :: q.free[i] == y;
    ThreadedKept(mem, mem[x := v], q.base, q.free);
  }

  lemma LiveRemoves(shape: Shape, mem: map<int, int>, s: seq<Pool>, p: Pool, x: int)
    requires shape.Ok() && PoolsOk(shape, mem, s) && Apart(shape, s) && p in s && x in p.live
    ensures x !in LiveElsewhere(s, p) && x in shape.Slots(p.addr)
  {
    assert p.Ok(shape, mem);
    forall q | q in s && q != p ensures x !in q.live {
      assert q.Ok(shape, mem);
      SlotOfOnePool(shape, p.addr, q.addr, x);
    }
  }

  /** GiveSlot, seen from the whole list. */
  method GiveSlotOf(shape: Shape, p: Pool, x: int, mem0: map<int, int>, ghost s: seq<Pool>) returns (mem: map<int, int>)
    requires shape.Ok() && PoolsOk(shape, mem0, s) && Apart(shape, s) && p in s && x in p.live
    modifies p`base, p`usage, p`free, p`live
    ensures PoolsOk(shape, mem, s) && LiveOf(s) == old(LiveOf(s)) - {x} && mem == mem0[x := old(p.base)]
    ensures p.free != [] && p.usage == old(p.usage) - 1 && p.usage >= 0 && (p.usage == 0 <==> p.live == {})
  {
    hide PoolOk, LiveOf, PoolsOk, Apart, Shape.Slots;
    PoolsOkAt(shape, mem0, s, p);
    LiveRemoves(shape, mem0, s, p, x);
    RestKeeps(shape, mem0, s, p, x, p.base);
    LiveParts(s, p);
    mem := GiveSlot(shape, p, x, mem0);
    LiveParts(s, p);
    OthersOk(shape, mem, s, p);
    UsageIsLive(shape, mem, p);
  }

  lemma PoolsOkAt(shape: Shape, mem: map<int, int>, s: seq<Pool>, p: Pool)
    requires PoolsOk(shape, mem, s) && p in s
    ensures p.Ok(shape, mem)
  {
  }

  lemma UsageIsLive(shape: Shape, mem: map<int, int>, p: Pool)
    requires p.Ok(shape, mem)
    ensures p.usage == |p.live|
  {
  }

  /** The relinking that moves a pool that is not the first to the front. */
  method MoveToFront(p: Pool, first0: Pool?, last0: Pool?, ghost s: seq<Pool>, ghost k: nat)
    returns (first: Pool?, last: Pool?)
    requires ListOf(s, first0, last0) && k < |s| && s[k] == p && p !in Without(s, k)
    modifies s`next, s`prev
    ensures ListOf([p] + Without(s, k), first, last)
  {
    forall i | 0 <= i < |s| - 1 ensures Without(s, k)[i] in s { WithoutAt(s, k, i); }
    hide Linked, Without;
    first, last := Unlink(p, first0, last0, s, k);
    first, last := PushFront(p, first, last, Without(s, k));
  }

  /** What free knows once the slot is back in pool k: only that pool may be out of place. */
  ghost predicate Returned(shape: Shape, mem: map<int, int>, s: seq<Pool>, k: nat)
    reads s
  {
    && k < |s| && PoolsOk(shape, mem, s) && Apart(shape, s)
    && RestFullLast(s, k) && OthersUsed(s, k) && SplitAt(s, k) && s[k] !in Without(s, k)
    && s[k].free != [] && s[k].usage >= 0 && (s[k].usage == 0 <==> s[k].live == {})
  }

  /** The end of free: drop the pool if it is empty, or move it to the front. */
  method DropOrMove(shape: Shape, p: Pool, ghost mem: map<int, int>, first0: Pool?, last0: Pool?, ghost s: seq<Pool>,
                    ghost k: nat)
    returns (first: Pool?, last: Pool?, ghost r: seq<Pool>)
    requires Returned(shape, mem, s, k) && ListOf(s, first0, last0) && p == s[k]
    modifies s`next, s`prev
    ensures ListOf(r, first, last) && PoolsOk(shape, mem, r) && Apart(shape, r) && FullLast(r) && NoneEmpty(r)
    ensures LiveOf(r) == old(LiveOf(s)) && forall q | q in r :: q in s
  {
    hide PoolOk, PoolsOk, LiveOf, Apart, Linked, FullLast, RestFullLast, NoneEmpty, OthersUsed, Shape.Slots;
    first, last, r := first0, last0, s;
    if p.usage == 0 {
      WithoutEmpty(shape, mem, s, k);
      r := Without(s, k);
      first, last := Unlink(p, first, last, s, k);
    } else if p.prev != null {
      ToFront(shape, mem, s, k);
      r := [p] + Without(s, k);
      first, last := MoveToFront(p, first, last, s, k);
    } else {
      AlreadyFirst(s, k);
      StaysFirst(s, k);
    }
  }

  /** Free's work on the pool it has found: give the slot back, then drop the pool if it is empty, or move
      it to the front. */
  method GiveBackTo(shape: Shape, p: Pool, x: int, mem0: map<int, int>, first0: Pool?, last0: Pool?, ghost s: seq<Pool>,
                    ghost k: nat)
    returns (mem: map<int, int>, first: Pool?, last: Pool?, ghost r: seq<Pool>)
    requires Good(shape, mem0, s, first0, last0) && NoneEmpty(s) && k < |s| && p == s[k] && x in p.live
    modifies p`base, p`usage, p`free, p`live, s`next, s`prev
    ensures Good(shape, mem, r, first, last) && NoneEmpty(r)
    ensures LiveOf(r) == old(LiveOf(s)) - {x} && mem == mem0[x := old(p.base)] && forall q | q in r :: q in s
  {
    hide PoolOk, PoolsOk, LiveOf, Apart, Linked, FullLast, RestFullLast, NoneEmpty, OthersUsed, SplitAt, Shape.Slots;
    OthersOrdered(s, k);
    mem := GiveSlotOf(shape, p, x, mem0, s);
    first, last, r := DropOrMove(shape, p, mem, first0, last0, s, k);
  }

  /** FullLast for the pools other than s[k]. */
  ghost predicate RestFullLast(s: seq<Pool>, k: nat)
    requires k < |s|
    reads Without(s, k)`free
  {
    FullLast(Without(s, k))
  }

  ghost predicate OthersUsed(s: seq<Pool>, k: nat)
    requires k < |s|
    reads Without(s, k)`usage
  {
    NoneEmpty(Without(s, k))
  }

  ghost predicate SplitAt(s: seq<Pool>, k: nat)
    requires k < |s|
  {
    && (forall q | q in Without(s, k) :: q in s)
    && (forall q | q in s :: q in Without(s, k) || q == s[k])
  }

  lemma OthersOrdered(s: seq<Pool>, k: nat)
    requires Linked(s) && FullLast(s) && NoneEmpty(s) && k < |s|
    ensures s[k] !in Without(s, k) && RestFullLast(s, k) && OthersUsed(s, k)
    ensures SplitAt(s, k)
  {
    var r := Without(s, k);
    forall i, j | 0 <= i < j < |r| && r[j].free != [] ensures r[i].free != [] {
      WithoutAt(s, k, i);
      WithoutAt(s, k, j);
    }
    forall i | 0 <= i < |r| ensures r[i] != s[k] && r[i] in s { WithoutAt(s, k, i); }
    forall i | 0 <= i < |s| && i != k ensures s[i] in r {
      WithoutAt(s, k, if i < k then i else i - 1);
    }
  }

  lemma WithoutEmpty(shape: Shape, mem: map<int, int>, s: seq<Pool>, k: nat)
    requires k < |s| && s[k].live == {} && RestFullLast(s, k) && OthersUsed(s, k)
    requires PoolsOk(shape, mem, s) && Apart(shape, s) && SplitAt(s, k)
    ensures var r := Without(s, k);
      PoolsOk(shape, mem, r) && Apart(shape, r) && LiveOf(r) == LiveOf(s) && FullLast(r) && NoneEmpty(r)
  {
    hide PoolOk, NoneEmpty, FullLast, Without, PoolsOk, Apart;
    var r := Without(s, k);
    forall q | q in r ensures q in s {
    }
    SubPools(shape, mem, s, r);
    DroppedLive(s, s[k], r);
  }

  lemma SubPools(shape: Shape, mem: map<int, int>, s: seq<Pool>, r: seq<Pool>)
    requires PoolsOk(shape, mem, s) && Apart(shape, s) && forall q | q in r :: q in s
    ensures PoolsOk(shape, mem, r) && Apart(shape, r)
  {
  }

  lemma DroppedLive(s: seq<Pool>, p: Pool, r: seq<Pool>)
    requires p.live == {} && forall q :: q in s <==> q in r || q == p
    ensures LiveOf(r) == LiveOf(s)
  {
    forall y ensures y in LiveOf(s) <==> y in LiveOf(r) {
      if y in LiveOf(s) {
        var q :| q in s && y in q.live;
        assert q in r;
      }
    }
  }

  lemma ToFront(shape: Shape, mem: map<int, int>, s: seq<Pool>, k: nat)
    requires k < |s| && s[k].free != [] && s[k].usage >= 1 && RestFullLast(s, k) && OthersUsed(s, k)
    requires PoolsOk(shape, mem, s) && Apart(shape, s) && SplitAt(s, k)
    ensures var r := [s[k]] + Without(s, k);
      PoolsOk(shape, mem, r) && Apart(shape, r) && LiveOf(r) == LiveOf(s) && FullLast(r) && NoneEmpty(r)
  {
    var t := Without(s, k);
    var r := [s[k]] + t;
    assert forall i | 0 < i < |r| :: r[i] == t[i - 1];
    assert forall q :: q in r <==> q in s;
    SamePools(shape, mem, s, r);
  }

  lemma AlreadyFirst(s: seq<Pool>, k: nat)
    requires Linked(s) && k < |s| && s[k].prev == null
    ensures k == 0
  {
  }

  lemma StaysFirst(s: seq<Pool>, k: nat)
    requires k == 0 && |s| > 0 && s[0].free != [] && s[0].usage >= 1 && RestFullLast(s, 0) && OthersUsed(s, 0)
    ensures FullLast(s) && NoneEmpty(s)
  {
    var t := Without(s, 0);
    assert forall i | 0 < i < |s| :: s[i] == t[i - 1];
  }

  /** Every pool but p has a slot in use. */
  ghost predicate UsedBut(s: seq<Pool>, p: Pool)
    reads (set q | q in s && q != p)`usage
  {
    forall q | q in s && q != p :: q.usage >= 1
  }

  lemma AllUsed(s: seq<Pool>, p: Pool, r: seq<Pool>)
    requires UsedBut(s, p) && p.usage >= 1 && forall q | q in r :: q in s
    ensures NoneEmpty(r)
  {
  }

  lemma LastOf(s: seq<Pool>, l: Pool?)
    requires |s| > 0 && l == At(s, |s| - 1)
    ensures l != null
  {
  }

  /** Where the bytes of a live slot are: in the block of the pool that has the slot. */
  lemma InUseWhere(shape: Shape, mem: map<int, int>, s: seq<Pool>, a: int) returns (p: Pool, x: int, i: int)
    requires shape.Ok() && PoolsOk(shape, mem, s) && InUse(shape, LiveOf(s), a)
    ensures p in s && x in p.live && 0 <= i < shape.poolSize && x == shape.Slot(p.addr, i)
    ensures x <= a < x + shape.itemAlloc && shape.InPool(p.addr, a)
  {
    x :| x in LiveOf(s) && x <= a < x + shape.itemAlloc;
    p :| p in s && x in p.live;
    assert p.Ok(shape, mem);
    assert x in shape.Slots(p.addr);
    i :| 0 <= i < shape.poolSize && x == shape.Slot(p.addr, i);
    SlotInPool(shape, p.addr, i);
  }

  lemma NewBlockFree(shape: Shape, mem: map<int, int>, s: seq<Pool>, addr: int)
    requires shape.Ok() && PoolsOk(shape, mem, s) && forall q | q in s :: RangesApart(shape, addr, q.addr)
    ensures forall a | InUse(shape, LiveOf(s), a) :: !shape.InBlock(addr, a)
  {
    forall a | InUse(shape, LiveOf(s), a) ensures !shape.InBlock(addr, a) {
      var p, x, i := InUseWhere(shape, mem, s, a);
    }
  }

  lemma WriteKeepsPools(shape: Shape, mem: map<int, int>, s: seq<Pool>, a: int, v: int)
    requires shape.Ok() && PoolsOk(shape, mem, s) && Apart(shape, s) && InUse(shape, LiveOf(s), a)
    ensures PoolsOk(shape, mem[a := v], s)
  {
    var p, x, i := InUseWhere(shape, mem, s, a);
    forall q | q in s ensures q.Ok(shape, mem[a := v]) {
      assert q.Ok(shape, mem);
      if a in SetOf(q.free) {
        FreeInBlock(shape, mem, q, a);
        if q == p {
          var j :| 0 <= j < shape.poolSize && a == shape.Slot(q.addr, j);
          SlotsApart(shape, p.addr, i, j, a);
        }
        assert false;
      }
      RestKeepsOne(shape, mem, q, a, v);
    }
  }

  lemma NotLiveOutside(shape: Shape, mem: map<int, int>, s: seq<Pool>, x: int)
    requires shape.Ok() && PoolsOk(shape, mem, s) && forall q | q in s :: !shape.InPool(q.addr, x)
    ensures x !in LiveOf(s)
  {
    forall q | q in s ensures x !in q.live {
      assert q.Ok(shape, mem);
      if x in q.live { SlotNotNull(shape, q, x, mem); }
    }
  }

  /** The pool the search stops at is the one that handed the slot out. */
  lemma OwnsSlot(shape: Shape, mem: map<int, int>, s: seq<Pool>, p: Pool, x: int)
    requires shape.Ok() && PoolsOk(shape, mem, s) && Apart(shape, s) && p in s
    requires shape.InPool(p.addr, x) && x in LiveOf(s)
    ensures x in p.live
  {
    var q :| q in s && x in q.live;
    assert q.Ok(shape, mem);
    assert x in shape.Slots(q.addr);
    LiveInOnePool(shape, mem, s, q, p, x);
  }

  /** Different slots in use never overlap. */
  lemma LiveSlotsDisjoint(shape: Shape, mem: map<int, int>, s: seq<Pool>, x: int, y: int)
    requires shape.Ok() && PoolsOk(shape, mem, s) && Apart(shape, s)
    requires x in LiveOf(s) && y in LiveOf(s) && x < y
    ensures x + shape.itemAlloc <= y
  {
    if y < x + shape.itemAlloc {
      assert InUse(shape, LiveOf(s), y);
      var p :| p in s && x in p.live;
      var q :| q in s && y in q.live;
      assert p.Ok(shape, mem) && q.Ok(shape, mem);
      assert x in shape.Slots(p.addr) && y in shape.Slots(q.addr);
      var i :| 0 <= i < shape.poolSize && x == shape.Slot(p.addr, i);
      var j :| 0 <= j < shape.poolSize && y == shape.Slot(q.addr, j);
      SlotInPool(shape, p.addr, i);
      SlotInPool(shape, q.addr, j);
      if p == q {
        SlotsApart(shape, p.addr, i, j, y);
      }
    }
  }

  // ---------- the allocator ----------

  class EvasMempool {
    const itemSize: int
    const poolSize: int
    var usage: int
    var first: Pool?
    var last: Pool?
    var mem: map<int, int>
    ghost var pools: seq<Pool>

    constructor (itemSize: int, poolSize: int)
      requires itemSize >= 1 && poolSize >= 1
      ensures this.itemSize == itemSize && this.poolSize == poolSize && Valid() && Live() == {} && pools == []
    {
      this.itemSize, this.poolSize := itemSize, poolSize;
      usage, first, last, mem, pools := 0, null, null, map[], [];
    }

    ghost function GetShape(): Shape
      requires itemSize >= 1
    {
      Shape(ItemAlloc(itemSize), poolSize)
    }

    ghost function Live(): set<int>
      reads this, pools
    {
      LiveOf(pools)
    }

    ghost predicate Valid()
      reads this, pools
    {
      && itemSize >= 1 && poolSize >= 1
      && ListOf(pools, first, last)
      && PoolsOk(GetShape(), mem, pools) && Apart(GetShape(), pools)
      && NoneEmpty(pools) && FullLast(pools)
      && usage == |Live()|
    }

    /** The search of malloc: the first pool with a free slot.  It stops at the first pool or finds every
        pool full, so the source's code for moving a later pool to the front (lines 77-87) never runs. */
    method FindFree() returns (p: Pool?)
      requires itemSize >= 1 && ListOf(pools, first, last) && FullLast(pools) && PoolsOk(GetShape(), mem, pools)
      ensures p == null ==> forall q | q in pools :: q.free == []
      ensures p != null ==> |pools| > 0 && p == pools[0] && p.base != NULL && p.free != []
    {
      p := first;
      ghost var i := 0;
      while p != null
        invariant 0 <= i <= |pools| && p == At(pools, i)
        invariant forall k | 0 <= k < i :: pools[k].free == []
        decreases |pools| - i
      {
        assert pools[i].Ok(GetShape(), mem);
        assert i == 0 || (pools[0].free == [] && pools[i].free == []);
        if p.base != NULL {
          if p.prev != null {
            assert false;
          }
          break;
        }
        p := p.next;
        i := i + 1;
      }
    }

    /** The search of free: the pool whose memory holds ptr. */
    method FindPool(ptr: int) returns (p: Pool?, ghost k: nat)
      requires itemSize >= 1 && ListOf(pools, first, last)
      ensures p == null ==> forall q | q in pools :: !GetShape().InPool(q.addr, ptr)
      ensures p != null ==> k < |pools| && pools[k] == p && GetShape().InPool(p.addr, ptr)
    {
      var psize := ItemAlloc(itemSize) * poolSize;
      p := first;
      k := 0;
      while p != null
        invariant k <= |pools| && p == At(pools, k)
        invariant forall i | 0 <= i < k :: !GetShape().InPool(pools[i].addr, ptr)
        decreases |pools| - k
      {
        var pmem := p.addr + HEADER;
        if ptr >= pmem && ptr < pmem + psize {
          return;
        }
        p := p.next;
        k := k + 1;
      }
    }

    method Install(f: Pool?, l: Pool?, m: map<int, int>, ghost s: seq<Pool>, n: int)
      requires itemSize >= 1 && poolSize >= 1 && Good(GetShape(), m, s, f, l) && NoneEmpty(s) && n == |LiveOf(s)|
      modifies `first, `last, `mem, `pools, `usage
      ensures Valid() && pools == s && mem == m && usage == n && Live() == old(LiveOf(s))
    {
      hide PoolOk, Linked, LiveOf, PoolsOk, Apart, FullLast, NoneEmpty, ListOf, Shape.Ok, ItemAlloc;
      first, last, mem, pools, usage := f, l, m, s, n;
    }

    /** evas_mempool_malloc; addr is what the C library's malloc returns should a new pool be needed, which is so
        exactly when all pools are full. */
    method Malloc(addr: int) returns (x: int)
      requires Valid() && addr > 0 && forall q | q in pools :: RangesApart(GetShape(), addr, q.addr)
      modifies this, pools
      ensures Valid()
      ensures forall i | 0 <= i < |pools| :: pools[i] in old(pools) || (fresh(pools[i]) && pools[i].addr == addr)
      ensures x !in old(Live()) && Live() == old(Live()) + {x} && usage == old(usage) + 1
      ensures |pools| == |old(pools)| + if old(forall q | q in pools :: q.free == []) then 1 else 0
      ensures forall a | InUse(GetShape(), old(Live()), a) ::
                (a in mem <==> a in old(mem)) && (a in mem ==> mem[a] == old(mem)[a])
    {
      hide PoolOk, Linked, LiveOf, PoolsOk, Apart, FullLast, UsedBut, NoneEmpty, InUse, Shape.Slots, Shape.InBlock,
           RangesApart;
      NewBlockFree(GetShape(), mem, pools, addr);
      var p, f, l, m;
      ghost var s;
      p, f, l, m, s := Provide(addr);
      ghost var r;
      x, f, l, r := TakeFromFirst(Shape(ItemAlloc(itemSize), poolSize), p, m, f, l, s);
      AllUsed(s, p, r);
      forall i | 0 <= i < |r| ensures r[i] in old(pools) || (fresh(r[i]) && r[i].addr == addr) {
        assert r[i] in s;
      }
      Install(f, l, m, r, usage + 1);
    }

    /** The first half of malloc: a pool with a free slot, in front of the list. */
    method Provide(addr: int) returns (p: Pool, f: Pool, l: Pool, m: map<int, int>, ghost s: seq<Pool>)
      requires Valid() && addr > 0 && forall q | q in pools :: RangesApart(GetShape(), addr, q.addr)
      modifies pools`prev
      ensures Good(GetShape(), m, s, f, l) && |s| > 0 && p == s[0] && p.base != NULL
      ensures UsedBut(s, p) && p.usage >= 0 && LiveOf(s) == old(Live()) && usage == |LiveOf(s)|
      ensures SameOutside(GetShape(), addr, mem, m)
      ensures forall i | 0 <= i < |s| :: s[i] in pools || (fresh(s[i]) && s[i].addr == addr)
      ensures |s| == |pools| + if old(forall q | q in pools :: q.free == []) then 1 else 0
    {
      hide PoolOk, Linked, LiveOf, PoolsOk, Apart, FullLast, Shape.Slots;
      var found := FindFree();
      if found == null {
        p, f, l, m := AddPool(Shape(ItemAlloc(itemSize), poolSize), addr, mem, first, last, pools);
        s := [p] + pools;
      } else {
        p, f, l, m, s := found, first, last, mem, pools;
        LastOf(s, l);
      }
    }

    /** evas_mempool_free: gives back a live slot; an address outside every pool is ignored. */
    method Free(ptr: int)
      requires Valid() && (ptr in Live() || forall q | q in pools :: !GetShape().InPool(q.addr, ptr))
      modifies this, pools
      ensures Valid() && Live() == old(Live()) - {ptr} && forall i | 0 <= i < |pools| :: pools[i] in old(pools)
      ensures usage == if ptr in old(Live()) then old(usage) - 1 else old(usage)
      ensures forall a | a != ptr :: (a in mem <==> a in old(mem)) && (a in mem ==> mem[a] == old(mem)[a])
    {
      hide PoolOk, Linked, LiveOf, PoolsOk, Apart, FullLast, NoneEmpty, Shape.Slots;
      ghost var shape := GetShape();
      ghost var k;
      var p;
      p, k := FindPool(ptr);
      if p == null {
        NotLiveOutside(shape, mem, pools, ptr);
      } else {
        OwnsSlot(shape, mem, pools, p, ptr);
        var f, l, m;
        ghost var s;
        m, f, l, s := GiveBackTo(Shape(ItemAlloc(itemSize), poolSize), p, ptr, mem, first, last, pools, k);
        Install(f, l, m, s, usage - 1);
      }
    }

    /** The client writes into a slot it holds: whatever it writes, the free lists stay intact. */
    method ClientWrite(a: int, v: int)
      requires Valid() && InUse(GetShape(), Live(), a)
      modifies `mem
      ensures Valid() && Live() == old(Live()) && mem == old(mem)[a := v]
    {
      hide PoolOk, Linked, PoolsOk, Apart, FullLast, NoneEmpty, Shape.Slots, LiveOf, InUse;
      WriteKeepsPools(GetShape(), mem, pools, a, v);
      mem := mem[a := v];
    }
  }
}
