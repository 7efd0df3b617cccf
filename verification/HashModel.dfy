/** The resizing chained hash of ecore_hash.c as functions on values: a table is a sequence of
    buckets, a bucket a sequence of entries, front first.  EcoreHash.dfy does the same with
    linked nodes. */
module HashModel {
  import opened Basics

  const PRIMES: seq<int> :=
    [17, 31, 61, 127, 257, 509, 1021,
     2053, 4093, 8191, 16381, 32771, 65537, 131071, 262147, 524287, 1048573,
     2097143, 4194301, 8388617, 16777213]
  const PRIME_MIN := 17
  const PRIME_MAX := 16777213
  const CHAIN_MAX := 3

  function Prime(size: nat): (p: int)
    requires size < |PRIMES|
    ensures p > 0
  {
    PRIMES[size]
  }

  /** All that the resizing arithmetic needs to know about the prime table. */
  lemma PrimesGrow(size: nat)
    requires size + 1 < |PRIMES|
    ensures 2 * Prime(size + 1) >= 3 * Prime(size) && Prime(size + 1) <= 3 * Prime(size)
  {
    assert |PRIMES| == 21;
    if size < 7 { assert size in {0, 1, 2, 3, 4, 5, 6}; }
    else if size < 14 { assert size in {7, 8, 9, 10, 11, 12, 13}; }
    else { assert size in {14, 15, 16, 17, 18, 19}; }
  }

  lemma PrimeBounds(size: nat)
    requires size < |PRIMES|
    ensures Prime(size) < PRIME_MAX <==> size + 1 < |PRIMES|
    ensures Prime(size) > PRIME_MIN <==> size > 0
  {
    if size < 7 { assert size in {0, 1, 2, 3, 4, 5, 6}; }
    else if size < 14 { assert size in {7, 8, 9, 10, 11, 12, 13}; }
    else { assert size in {14, 15, 16, 17, 18, 19, 20}; }
  }

  /** ECORE_HASH_INCREASE: integer division, and never at the last table size. */
  predicate MustGrow(size: nat, nodes: int)
    requires size < |PRIMES|
  {
    Prime(size) < PRIME_MAX && nodes / Prime(size) > CHAIN_MAX
  }

  /** ECORE_HASH_REDUCE: nodes / prime[size - 1] < 3 * 0.375.  The source divides doubles; for values
      below 2^27 the rounded quotient is below 9/8 exactly when the true one is. */
  predicate MustShrink(size: nat, nodes: int)
    requires size < |PRIMES|
  {
    Prime(size) > PRIME_MIN && size > 0 && 8 * nodes < 9 * Prime(size - 1)
  }

  // ---------- load and cost of resizing, on sizes alone ----------

  /** What one insertion of a new key does to (size, nodes, moved). */
  datatype Load = Load(size: nat, nodes: int, moved: int)

  function GrowLoad(l: Load): Load
    requires l.size < |PRIMES|
  {
    if MustGrow(l.size, l.nodes) then Load(l.size + 1, l.nodes, l.moved + l.nodes) else l
  }

  function AddLoad(l: Load): Load
    requires l.size < |PRIMES|
  {
    var g := GrowLoad(l);
    g.(nodes := g.nodes + 1)
  }

  function ShrinkLoad(l: Load): Load
    requires l.size < |PRIMES|
  {
    if MustShrink(l.size, l.nodes) then Load(l.size - 1, l.nodes, l.moved + l.nodes) else l
  }

  function RemoveLoad(l: Load, hit: bool): Load
    requires l.size < |PRIMES|
  {
    ShrinkLoad(if hit then l.(nodes := l.nodes - 1) else l)
  }

  /** Between operations the table is neither too full nor too empty. */
  ghost predicate Balanced(l: Load) {
    && l.size < |PRIMES| && l.nodes >= 0
    && (l.size + 1 < |PRIMES| ==> l.nodes <= 4 * Prime(l.size))
    && (l.size > 0 ==> 8 * l.nodes >= 9 * Prime(l.size - 1))
  }

  lemma GrowsWhenFull(l: Load)
    requires Balanced(l)
    ensures MustGrow(l.size, l.nodes) <==> l.size + 1 < |PRIMES| && l.nodes == 4 * Prime(l.size)
  {
    PrimeBounds(l.size);
    var p := Prime(l.size);
    DivAbove(l.nodes, p);
  }

  lemma DivAbove(n: nat, p: nat)
    requires p > 0
    ensures n / p > 3 <==> n >= 4 * p
  {
    var d := n / p;
    assert n == d * p + n % p && 0 <= n % p < p;
    if d >= 4 { assert d * p >= 4 * p; }
    if d <= 3 { assert d * p <= 3 * p; }
  }

  lemma AddKeepsBalance(l: Load)
    requires Balanced(l)
    ensures Balanced(AddLoad(l))
  {
    GrowsWhenFull(l);
    if l.size + 1 < |PRIMES| { PrimesGrow(l.size); }
  }

  lemma RemoveKeepsBalance(l: Load, hit: bool)
    requires Balanced(l) && (hit ==> l.nodes > 0)
    ensures Balanced(RemoveLoad(l, hit))
  {
    PrimeBounds(l.size);
    if l.size > 0 { PrimesGrow(l.size - 1); }
    if l.size > 1 { PrimesGrow(l.size - 2); }
  }

  // ---------- amortized cost ----------

  function Max(a: int, b: int): int { if a > b then a else b }

  /** Eight times the credit saved up for the next resize. */
  ghost function Credit(size: nat, n: nat): int
    requires size < |PRIMES|
  {
    var toGrow := 24 * (n - (if size == 0 then 19 else 4 * Prime(size - 1)));
    var toShrink := if size == 0 then 0 else 27 * Prime(size) - 24 * n;
    Max(0, Max(toGrow, toShrink))
  }

  lemma AddPays(l: Load)
    requires Balanced(l)
    ensures var g := AddLoad(l);
      8 * g.moved + Credit(g.size, g.nodes) <= 8 * l.moved + Credit(l.size, l.nodes) + 24
  {
    assert Prime(0) == PRIME_MIN;
    hide Prime, PRIMES;
    GrowsWhenFull(l);
    if MustGrow(l.size, l.nodes) {
      PrimesGrow(l.size);
      if l.size > 0 { PrimesGrow(l.size - 1); }
    }
  }

  lemma RemovePays(l: Load, hit: bool)
    requires Balanced(l) && (hit ==> l.nodes > 0)
    ensures var g := RemoveLoad(l, hit);
      8 * g.moved + Credit(g.size, g.nodes) <= 8 * l.moved + Credit(l.size, l.nodes) + 24
  {
    PrimeBounds(l.size);
    if l.size > 0 { PrimesGrow(l.size - 1); }
    if l.size > 1 { PrimesGrow(l.size - 2); }
  }

  // ---------- tables ----------

  datatype Entry<K, V> = Entry(key: K, value: V)

  /** The caller's hash and comparison functions. */
  datatype Ops<!K> = Ops(hash: K -> nat, compare: (K, K) -> int)
  {
    predicate Same(a: K, b: K) { compare(a, b) == 0 }
  }

  /** Comparing equal is an equivalence that the hash respects. */
  ghost predicate Lawful<K(!new)>(ops: Ops<K>) {
    && (forall a :: ops.Same(a, a))
    && (forall a, b :: ops.Same(a, b) ==> ops.Same(b, a))
    && (forall a, b, c :: ops.Same(a, b) && ops.Same(b, c) ==> ops.Same(a, c))
    && (forall a, b :: ops.Same(a, b) ==> ops.hash(a) == ops.hash(b))
  }

  datatype Table<K, V> = Table(size: nat, buckets: seq<seq<Entry<K, V>>>, nodes: int, moved: int)

  /** The table has the bucket array its size asks for. */
  ghost predicate Shaped<K, V>(t: Table<K, V>) {
    t.size < |PRIMES| && |t.buckets| == Prime(t.size)
  }

  /** ecore_hash_init. */
  ghost function Empty<K, V>(): (t: Table<K, V>)
    ensures Shaped(t)
  {
    Table(0, seq(Prime(0), i => []), 0, 0)
  }

  function BucketOf<K>(ops: Ops<K>, size: nat, k: K): (i: nat)
    requires size < |PRIMES|
    ensures i < Prime(size)
  {
    ops.hash(k) % Prime(size)
  }

  /** The position of k in a bucket, the bucket's length if it is not there. */
  function Find<K, V>(ops: Ops<K>, b: seq<Entry<K, V>>, k: K): (i: nat)
    ensures i <= |b| && (i < |b| ==> ops.Same(b[i].key, k))
    ensures forall j | 0 <= j < i :: !ops.Same(b[j].key, k)
  {
    if b == [] then 0
    else if ops.Same(b[0].key, k) then 0
    else
      var i := Find(ops, b[1..], k);
      assert forall j | 0 < j < i + 1 :: b[j] == b[1..][j - 1];
      1 + i
  }

  /** b with its entry i moved to the front. */
  function ToFront<E>(b: seq<E>, i: nat): seq<E>
    requires i < |b|
  {
    [b[i]] + b[..i] + b[i + 1..]
  }

  ghost function SetBucket<K, V>(t: Table<K, V>, i: nat, b: seq<Entry<K, V>>): Table<K, V>
    requires i < |t.buckets|
  {
    t.(buckets := t.buckets[i := b])
  }

  /** _ecore_hash_node_get: a hit moves to the front of its bucket. */
  ghost function NodeGet<K, V>(ops: Ops<K>, t: Table<K, V>, k: K): (r: (Table<K, V>, Option<Entry<K, V>>))
    requires Shaped(t)
  {
    var h := BucketOf(ops, t.size, k);
    var b := t.buckets[h];
    var i := Find(ops, b, k);
    if i < |b| then (SetBucket(t, h, ToFront(b, i)), Some(b[i])) else (t, None)
  }

  /** Prepending a node to its bucket, the last step of _ecore_hash_node_add. */
  ghost function PutNode<K, V>(ops: Ops<K>, t: Table<K, V>, e: Entry<K, V>): Table<K, V>
    requires Shaped(t)
  {
    var h := BucketOf(ops, t.size, e.key);
    SetBucket(t, h, [e] + t.buckets[h]).(nodes := t.nodes + 1)
  }

  ghost function Flatten<E>(bs: seq<seq<E>>): seq<E> {
    if bs == [] then [] else bs[0] + Flatten(bs[1..])
  }

  /** _ecore_hash_node_add: it may resize first, and the resize adds every node again by this function. */
  ghost function NodeAdd<K, V>(ops: Ops<K>, t: Table<K, V>, e: Entry<K, V>): (r: Table<K, V>)
    requires Shaped(t)
    ensures Shaped(r) && r.size >= t.size
    decreases |PRIMES| - t.size, 0, 1
  {
    PutNode(ops, Grown(ops, t), e)
  }

  ghost function Grown<K, V>(ops: Ops<K>, t: Table<K, V>): (r: Table<K, V>)
    requires Shaped(t)
    ensures Shaped(r) && r.size >= t.size && (MustGrow(t.size, t.nodes) ==> r.size > t.size)
    decreases |PRIMES| - t.size, 0, 0, 1
  {
    if MustGrow(t.size, t.nodes) then PrimeBounds(t.size); Increase(ops, t) else t
  }

  /** _ecore_hash_increase. */
  ghost function Increase<K, V>(ops: Ops<K>, t: Table<K, V>): (r: Table<K, V>)
    requires Shaped(t) && t.size + 1 < |PRIMES|
    ensures Shaped(r) && r.size > t.size
    decreases |PRIMES| - t.size, 0, 0, 0
  {
    Rehash(ops, Cleared(t, t.size + 1), Flatten(t.buckets))
  }

  /** A table of another size, still empty; the nodes moved so far are kept on record. */
  ghost function Cleared<K, V>(t: Table<K, V>, size: nat): (r: Table<K, V>)
    requires size < |PRIMES|
    ensures Shaped(r)
  {
    Table(size, seq(Prime(size), i => []), 0, t.moved)
  }

  /** _ecore_hash_rehash: the nodes of the old table, bucket by bucket and front first. */
  ghost function Rehash<K, V>(ops: Ops<K>, t: Table<K, V>, rest: seq<Entry<K, V>>): (r: Table<K, V>)
    requires Shaped(t)
    ensures Shaped(r) && r.size >= t.size
    decreases |PRIMES| - t.size, |rest|, 2
  {
    if rest == [] then t
    else
      var u := NodeAdd(ops, t, rest[0]);
      Rehash(ops, u.(moved := u.moved + 1), rest[1..])
  }

  /** _ecore_hash_decrease. */
  ghost function Decrease<K, V>(ops: Ops<K>, t: Table<K, V>): (r: Table<K, V>)
    requires Shaped(t) && t.size > 0
    ensures Shaped(r)
  {
    Rehash(ops, Cleared(t, t.size - 1), Flatten(t.buckets))
  }

  /** The first node of bucket h takes over e. */
  ghost function Overwrite<K, V>(t: Table<K, V>, h: nat, e: Entry<K, V>): (r: Table<K, V>)
    requires Shaped(t) && h < |t.buckets| && t.buckets[h] != []
    ensures Shaped(r)
  {
    SetBucket(t, h, [e] + t.buckets[h][1..])
  }

  /** ecore_hash_set: an existing node keeps its key and takes the new value. */
  ghost function Set<K, V>(ops: Ops<K>, t: Table<K, V>, k: K, v: V): (r: Table<K, V>)
    requires Shaped(t)
    ensures Shaped(r)
  {
    var (u, hit) := NodeGet(ops, t, k);
    if hit.Some? then
      Overwrite(u, BucketOf(ops, t.size, k), hit.value.(value := v))
    else NodeAdd(ops, u, Entry(k, v))
  }

  /** The table without the node of k. */
  ghost function Unlinked<K, V>(ops: Ops<K>, t: Table<K, V>, k: K): (u: Table<K, V>)
    requires Shaped(t)
    ensures Shaped(u)
  {
    var h := BucketOf(ops, t.size, k);
    var b := t.buckets[h];
    var i := Find(ops, b, k);
    if i < |b| then SetBucket(t, h, RemoveAt(b, i)).(nodes := t.nodes - 1) else t
  }

  /** ecore_hash_remove, without the value it returns. */
  ghost function Remove<K, V>(ops: Ops<K>, t: Table<K, V>, k: K): (r: Table<K, V>)
    requires Shaped(t)
    ensures Shaped(r)
  {
    Shrunk(ops, Unlinked(ops, t, k))
  }

  ghost function Shrunk<K, V>(ops: Ops<K>, t: Table<K, V>): (r: Table<K, V>)
    requires Shaped(t)
    ensures Shaped(r)
  {
    if MustShrink(t.size, t.nodes) then Decrease(ops, t) else t
  }

  /** One turn of the loop of ecore_hash_hash_set: an existing node takes over key and value. */
  ghost function ImportOne<K, V>(ops: Ops<K>, t: Table<K, V>, e: Entry<K, V>): (r: Table<K, V>)
    requires Shaped(t)
    ensures Shaped(r)
  {
    var (u, hit) := NodeGet(ops, t, e.key);
    if hit.Some? then Overwrite(u, BucketOf(ops, t.size, e.key), e) else NodeAdd(ops, u, e)
  }

  /** The loops of ecore_hash_hash_set, over the nodes of the imported table in order. */
  ghost function Import<K, V>(ops: Ops<K>, t: Table<K, V>, rest: seq<Entry<K, V>>): (r: Table<K, V>)
    requires Shaped(t)
    ensures Shaped(r)
    decreases |rest|
  {
    if rest == [] then t else Import(ops, ImportOne(ops, t, rest[0]), rest[1..])
  }
}
