/** The hash table of HashModel is a finite map, and resizing is cheap. */
module HashProofs {
  import opened Basics
  import opened HashModel

  /** No two entries have keys that compare equal. */
  ghost predicate Distinct<K, V>(ops: Ops<K>, s: seq<Entry<K, V>>) {
    forall i, j | 0 <= i < j < |s| :: !ops.Same(s[i].key, s[j].key)
  }

  ghost predicate InPlace<K, V>(ops: Ops<K>, t: Table<K, V>)
    requires Shaped(t)
  {
    forall i, j | 0 <= i < |t.buckets| && 0 <= j < |t.buckets[i]| :: BucketOf(ops, t.size, t.buckets[i][j].key) == i
  }

  /** Every entry is in the bucket its key hashes to, keys are distinct, and nodes counts the entries. */
  ghost predicate Sound<K, V>(ops: Ops<K>, t: Table<K, V>) {
    && Shaped(t) && InPlace(ops, t)
    && (forall i | 0 <= i < |t.buckets| :: Distinct(ops, t.buckets[i]))
    && t.nodes == |Flatten(t.buckets)|
  }

  function LoadOf<K, V>(t: Table<K, V>): Load {
    Load(t.size, t.nodes, t.moved)
  }

  /** What holds between operations. */
  ghost predicate Valid<K, V>(ops: Ops<K>, t: Table<K, V>) {
    Sound(ops, t) && Balanced(LoadOf(t))
  }

  ghost function LookupIn<K, V>(ops: Ops<K>, s: seq<Entry<K, V>>, k: K): Option<V> {
    var i := Find(ops, s, k);
    if i < |s| then Some(s[i].value) else None
  }

  /** The finite map a table stands for. */
  ghost function Lookup<K, V>(ops: Ops<K>, t: Table<K, V>, k: K): Option<V>
    requires Shaped(t)
  {
    LookupIn(ops, t.buckets[BucketOf(ops, t.size, k)], k)
  }

  // ---------- Flatten ----------

  lemma {:induction false} FlattenUpdate<E>(bs: seq<seq<E>>, i: nat, b: seq<E>)
    requires i < |bs|
    ensures |Flatten(bs[i := b])| == |Flatten(bs)| - |bs[i]| + |b|
    decreases |bs|
  {
    if i == 0 {
      assert bs[0 := b][1..] == bs[1..];
    } else {
      assert bs[i := b][1..] == bs[1..][i - 1 := b];
      FlattenUpdate(bs[1..], i - 1, b);
    }
  }

  lemma {:induction false} FlattenEmpty<E>(n: nat)
    ensures Flatten<E>(seq(n, i => [])) == []
    decreases n
  {
    if n > 0 {
      var s: seq<seq<E>> := seq(n, i => []);
      assert s[1..] == seq(n - 1, i => []);
      FlattenEmpty<E>(n - 1);
    }
  }

  /** Where the entries of Flatten come from. */
  lemma {:induction false} FlattenFrom<E>(bs: seq<seq<E>>, x: E)
    ensures x in Flatten(bs) <==> exists i | 0 <= i < |bs| :: x in bs[i]
    decreases |bs|
  {
    if bs != [] {
      FlattenFrom(bs[1..], x);
      if x in Flatten(bs[1..]) {
        var i :| 0 <= i < |bs| - 1 && x in bs[1..][i];
        assert x in bs[i + 1];
      }
      forall i | 0 <= i < |bs| && x in bs[i] ensures x in Flatten(bs) {
        if i > 0 { assert x in bs[1..][i - 1]; }
      }
    }
  }

  // ---------- finding ----------

  lemma {:induction false} FindOnly<K(!new), V>(ops: Ops<K>, s: seq<Entry<K, V>>, k: K, i: nat)
    requires Lawful(ops) && Distinct(ops, s) && i < |s| && ops.Same(s[i].key, k)
    ensures Find(ops, s, k) == i
    decreases |s|
  {
    var j := Find(ops, s, k);
    if j < i { NotSame(ops, s[j].key, s[i].key, k); }
  }

  lemma NotSame<K(!new)>(ops: Ops<K>, a: K, b: K, k: K)
    requires Lawful(ops) && ops.Same(a, k) && !ops.Same(a, b)
    ensures !ops.Same(b, k)
  {
    assert ops.Same(b, k) ==> ops.Same(k, b);
  }

  lemma SameFlips<K(!new)>(ops: Ops<K>, a: K, b: K)
    requires Lawful(ops)
    ensures ops.Same(a, b) <==> ops.Same(b, a)
  {
  }

  lemma FindCons<K, V>(ops: Ops<K>, e: Entry<K, V>, s: seq<Entry<K, V>>, k: K)
    ensures LookupIn(ops, [e] + s, k) == if ops.Same(e.key, k) then Some(e.value) else LookupIn(ops, s, k)
  {
    assert ([e] + s)[1..] == s;
  }

  lemma {:induction false} FindConcat<K, V>(ops: Ops<K>, a: seq<Entry<K, V>>, b: seq<Entry<K, V>>, k: K)
    ensures LookupIn(ops, a + b, k) == if LookupIn(ops, a, k).Some? then LookupIn(ops, a, k) else LookupIn(ops, b, k)
    decreases |a|
  {
    if a == [] {
      assert a + b == b;
    } else {
      FindConcat(ops, a[1..], b, k);
      assert a + b == [a[0]] + (a[1..] + b) && a == [a[0]] + a[1..];
      FindCons(ops, a[0], a[1..] + b, k);
      FindCons(ops, a[0], a[1..], k);
    }
  }

  lemma LookupNone<K, V>(ops: Ops<K>, s: seq<Entry<K, V>>, k: K)
    ensures LookupIn(ops, s, k) == None <==> forall i | 0 <= i < |s| :: !ops.Same(s[i].key, k)
  {
  }

  /** A key is looked up in its own bucket as in all of them. */
  lemma {:induction false} LookupFlat<K(!new), V>(ops: Ops<K>, t: Table<K, V>, k: K)
    requires Lawful(ops) && Shaped(t) && InPlace(ops, t)
    ensures LookupIn(ops, Flatten(t.buckets), k) == Lookup(ops, t, k)
  {
    LookupFlatFrom(ops, t, k, 0);
    assert t.buckets[0..] == t.buckets;
  }

  lemma {:induction false} LookupFlatFrom<K(!new), V>(ops: Ops<K>, t: Table<K, V>, k: K, n: nat)
    requires Lawful(ops) && Shaped(t) && InPlace(ops, t) && n <= |t.buckets|
    ensures LookupIn(ops, Flatten(t.buckets[n..]), k)
         == if n <= BucketOf(ops, t.size, k) then Lookup(ops, t, k) else None
    decreases |t.buckets| - n
  {
    var h := BucketOf(ops, t.size, k);
    if n < |t.buckets| {
      LookupFlatFrom(ops, t, k, n + 1);
      var bs := t.buckets[n..];
      assert bs[0] == t.buckets[n] && bs[1..] == t.buckets[n + 1..];
      FindConcat(ops, bs[0], Flatten(bs[1..]), k);
      if n != h {
        forall j | 0 <= j < |bs[0]| ensures !ops.Same(bs[0][j].key, k) {
          assert BucketOf(ops, t.size, t.buckets[n][j].key) == n;
        }
        LookupNone(ops, bs[0], k);
      }
    }
  }

  /** The keys of different buckets differ too. */
  lemma {:induction false} FlatDistinct<K(!new), V>(ops: Ops<K>, t: Table<K, V>, n: nat)
    requires Lawful(ops) && Sound(ops, t) && n <= |t.buckets|
    ensures Distinct(ops, Flatten(t.buckets[n..]))
    decreases |t.buckets| - n
  {
    if n < |t.buckets| {
      FlatDistinct(ops, t, n + 1);
      var bs := t.buckets[n..];
      var a, b := bs[0], Flatten(bs[1..]);
      assert a == t.buckets[n] && bs[1..] == t.buckets[n + 1..];
      forall i, j | 0 <= i < |a| && 0 <= j < |b| ensures !ops.Same(a[i].key, b[j].key) {
        FlattenFrom(t.buckets[n + 1..], b[j]);
        assert b[j] in b;
        var m :| 0 <= m < |t.buckets[n + 1..]| && b[j] in t.buckets[n + 1..][m];
        var l :| 0 <= l < |t.buckets[n + 1 + m]| && t.buckets[n + 1 + m][l] == b[j];
        assert BucketOf(ops, t.size, b[j].key) == n + 1 + m;
        assert BucketOf(ops, t.size, t.buckets[n][i].key) == n;
      }
      DistinctConcat(ops, a, b);
    }
  }

  lemma DistinctConcat<K, V>(ops: Ops<K>, a: seq<Entry<K, V>>, b: seq<Entry<K, V>>)
    requires Distinct(ops, a) && Distinct(ops, b)
    requires forall i, j | 0 <= i < |a| && 0 <= j < |b| :: !ops.Same(a[i].key, b[j].key)
    ensures Distinct(ops, a + b)
  {
    var c := a + b;
    forall i, j | 0 <= i < j < |c| ensures !ops.Same(c[i].key, c[j].key) {
      if i < |a| <= j {
        assert c[i] == a[i] && c[j] == b[j - |a|];
      } else if |a| <= i {
        assert c[i] == b[i - |a|] && c[j] == b[j - |a|];
      }
    }
  }

  // ---------- adding one node, without resizing ----------

  lemma PutNodeSound<K(!new), V>(ops: Ops<K>, t: Table<K, V>, e: Entry<K, V>)
    requires Lawful(ops) && Sound(ops, t) && Lookup(ops, t, e.key) == None
    ensures Sound(ops, PutNode(ops, t, e))
  {
    var h := BucketOf(ops, t.size, e.key);
    var b := t.buckets[h];
    var u := PutNode(ops, t, e);
    FlattenUpdate(t.buckets, h, [e] + b);
    LookupNone(ops, b, e.key);
    forall j | 0 <= j < |b| ensures !ops.Same(e.key, b[j].key) {
      assert !ops.Same(b[j].key, e.key);
    }
    assert u.buckets[h] == [e] + b;
    DistinctConcat(ops, [e], b);
    forall i, j | 0 <= i < |u.buckets| && 0 <= j < |u.buckets[i]|
      ensures BucketOf(ops, u.size, u.buckets[i][j].key) == i
    {
      if i == h && j > 0 { assert u.buckets[i][j] == b[j - 1]; }
    }
  }

  lemma PutNodeLookup<K(!new), V>(ops: Ops<K>, t: Table<K, V>, e: Entry<K, V>, k: K)
    requires Lawful(ops) && Shaped(t)
    ensures Lookup(ops, PutNode(ops, t, e), k) == if ops.Same(e.key, k) then Some(e.value) else Lookup(ops, t, k)
  {
    var h := BucketOf(ops, t.size, e.key);
    FindCons(ops, e, t.buckets[h], k);
  }

  // ---------- rehashing ----------

  /** There is room for n more nodes without growing. */
  ghost predicate Room<K, V>(t: Table<K, V>, n: nat) {
    t.size < |PRIMES| && t.nodes >= 0 && (t.size + 1 < |PRIMES| ==> t.nodes + n <= 4 * Prime(t.size))
  }

  lemma RoomNoGrowth<K, V>(t: Table<K, V>, n: nat)
    requires Room(t, n) && n > 0
    ensures !MustGrow(t.size, t.nodes)
  {
    PrimeBounds(t.size);
    DivAbove(t.nodes, Prime(t.size));
  }

  /** A rehash that has room never resizes again, moves each node once and loses none. */
  lemma {:induction false} RehashCorrect<K(!new), V>(ops: Ops<K>, t: Table<K, V>, rest: seq<Entry<K, V>>)
    requires Lawful(ops) && Shaped(t) && Sound(ops, t) && Room(t, |rest|) && Distinct(ops, rest)
    requires forall i | 0 <= i < |rest| :: Lookup(ops, t, rest[i].key) == None
    ensures var r := Rehash(ops, t, rest);
      && Sound(ops, r) && r.size == t.size && r.nodes == t.nodes + |rest| && r.moved == t.moved + |rest|
      && forall k :: Lookup(ops, r, k)
                  == if LookupIn(ops, rest, k).Some? then LookupIn(ops, rest, k) else Lookup(ops, t, k)
    decreases |rest|
  {
    hide Sound, PutNode, NodeAdd, Lookup, LookupIn, Distinct, Rehash, InPlace, Lawful;
    if rest == [] {
      RehashNothing(ops, t);
    } else {
      var e, tail := rest[0], rest[1..];
      var w := OneMoved(ops, t, e);
      RehashUnfold(ops, t, rest);
      OneMovedRoom(ops, t, rest);
      DistinctTail(ops, rest);
      RehashCorrect(ops, w, tail);
      assert rest == [e] + tail;
      forall k ensures Lookup(ops, Rehash(ops, w, tail), k)
                    == if LookupIn(ops, rest, k).Some? then LookupIn(ops, rest, k) else Lookup(ops, t, k)
      {
        OneMovedLookup(ops, t, e, k);
        FindCons(ops, e, tail, k);
        if ops.Same(e.key, k) { TailMisses(ops, rest, k); }
      }
    }
  }

  /** Adding one node of the old table when there is room. */
  ghost function OneMoved<K, V>(ops: Ops<K>, t: Table<K, V>, e: Entry<K, V>): (w: Table<K, V>)
    requires Shaped(t)
    ensures Shaped(w)
  {
    var u := PutNode(ops, t, e);
    u.(moved := u.moved + 1)
  }

  lemma RehashNothing<K, V>(ops: Ops<K>, t: Table<K, V>)
    requires Shaped(t)
    ensures Rehash(ops, t, []) == t && forall k :: LookupIn<K, V>(ops, [], k) == None
  {
  }

  lemma RehashUnfold<K, V>(ops: Ops<K>, t: Table<K, V>, rest: seq<Entry<K, V>>)
    requires Shaped(t) && rest != [] && Room(t, |rest|)
    ensures Rehash(ops, t, rest) == Rehash(ops, OneMoved(ops, t, rest[0]), rest[1..])
  {
    RoomNoGrowth(t, |rest|);
    assert Grown(ops, t) == t;
    assert NodeAdd(ops, t, rest[0]) == PutNode(ops, t, rest[0]);
  }

  lemma OneMovedRoom<K(!new), V>(ops: Ops<K>, t: Table<K, V>, rest: seq<Entry<K, V>>)
    requires Lawful(ops) && Sound(ops, t) && Room(t, |rest|) && Distinct(ops, rest) && rest != []
    requires forall i | 0 <= i < |rest| :: Lookup(ops, t, rest[i].key) == None
    ensures var w := OneMoved(ops, t, rest[0]);
      && Sound(ops, w) && Room(w, |rest| - 1)
      && w.size == t.size && w.nodes == t.nodes + 1 && w.moved == t.moved + 1
      && forall i | 0 <= i < |rest[1..]| :: Lookup(ops, w, rest[1..][i].key) == None
  {
    var e, tail := rest[0], rest[1..];
    PutNodeSound(ops, t, e);
    hide Sound, PutNode, Lookup, InPlace, Lawful;
    forall i | 0 <= i < |tail| ensures Lookup(ops, OneMoved(ops, t, e), tail[i].key) == None {
      OneMovedLookup(ops, t, e, tail[i].key);
      assert tail[i] == rest[i + 1];
      assert !ops.Same(rest[0].key, rest[i + 1].key);
    }
  }

  lemma OneMovedLookup<K(!new), V>(ops: Ops<K>, t: Table<K, V>, e: Entry<K, V>, k: K)
    requires Lawful(ops) && Shaped(t)
    ensures Lookup(ops, OneMoved(ops, t, e), k) == if ops.Same(e.key, k) then Some(e.value) else Lookup(ops, t, k)
  {
    PutNodeLookup(ops, t, e, k);
  }

  lemma DistinctTail<K, V>(ops: Ops<K>, s: seq<Entry<K, V>>)
    requires Distinct(ops, s) && s != []
    ensures Distinct(ops, s[1..])
  {
  }

  lemma TailMisses<K(!new), V>(ops: Ops<K>, rest: seq<Entry<K, V>>, k: K)
    requires Lawful(ops) && rest != [] && Distinct(ops, rest) && ops.Same(rest[0].key, k)
    ensures LookupIn(ops, rest[1..], k) == None
  {
    forall i | 0 <= i < |rest| - 1 ensures !ops.Same(rest[1..][i].key, k) {
      NotSame(ops, rest[0].key, rest[i + 1].key, k);
    }
    LookupNone(ops, rest[1..], k);
  }

  // ---------- resizing ----------

  lemma ClearedSound<K(!new), V>(ops: Ops<K>, t: Table<K, V>, size: nat)
    requires size < |PRIMES|
    ensures Sound(ops, Cleared(t, size))
    ensures forall k :: Lookup(ops, Cleared(t, size), k) == None
  {
    FlattenEmpty<Entry<K, V>>(Prime(size));
  }

  /** Resizing to a size with room for all nodes moves each of them once and keeps the map. */
  lemma ResizeCorrect<K(!new), V>(ops: Ops<K>, t: Table<K, V>, size: nat)
    requires Lawful(ops) && Shaped(t) && Sound(ops, t)
    requires size < |PRIMES| && t.nodes >= 0 && Room(Cleared(t, size), t.nodes)
    ensures var r := Rehash(ops, Cleared(t, size), Flatten(t.buckets));
      && Sound(ops, r) && LoadOf(r) == Load(size, t.nodes, t.moved + t.nodes)
      && forall k :: Lookup(ops, r, k) == Lookup(ops, t, k)
  {
    SoundParts(ops, t);
    hide Sound, Lookup, LookupIn, Distinct, Rehash, InPlace, Lawful;
    ClearedSound(ops, t, size);
    FlatDistinct(ops, t, 0);
    assert t.buckets[0..] == t.buckets;
    RehashCorrect(ops, Cleared(t, size), Flatten(t.buckets));
    forall k ensures LookupIn(ops, Flatten(t.buckets), k) == Lookup(ops, t, k) {
      LookupFlat(ops, t, k);
    }
  }

  lemma SoundParts<K, V>(ops: Ops<K>, t: Table<K, V>)
    requires Shaped(t) && Sound(ops, t)
    ensures InPlace(ops, t) && t.nodes == |Flatten(t.buckets)| >= 0
  {
  }

  /** The resize in front of an insertion. */
  lemma GrownCorrect<K(!new), V>(ops: Ops<K>, t: Table<K, V>)
    requires Lawful(ops) && Shaped(t) && Sound(ops, t) && Balanced(LoadOf(t))
    ensures var g := Grown(ops, t);
      && Sound(ops, g) && LoadOf(g) == GrowLoad(LoadOf(t))
      && forall k :: Lookup(ops, g, k) == Lookup(ops, t, k)
  {
    hide Sound, Lookup, Rehash, InPlace, Lawful, Distinct, Flatten;
    if MustGrow(t.size, t.nodes) {
      RoomAbove(t);
      ResizeCorrect(ops, t, t.size + 1);
    }
  }

  lemma RoomAbove<K, V>(t: Table<K, V>)
    requires Balanced(LoadOf(t)) && MustGrow(t.size, t.nodes)
    ensures t.size + 1 < |PRIMES| && t.nodes >= 0 && Room(Cleared(t, t.size + 1), t.nodes)
  {
    GrowsWhenFull(LoadOf(t));
    PrimesGrow(t.size);
  }

  /** _ecore_hash_node_add of a new key, with the resize it may start. */
  lemma NodeAddCorrect<K(!new), V>(ops: Ops<K>, t: Table<K, V>, e: Entry<K, V>)
    requires Lawful(ops) && Shaped(t) && Sound(ops, t) && Balanced(LoadOf(t)) && Lookup(ops, t, e.key) == None
    ensures var r := NodeAdd(ops, t, e);
      && Sound(ops, r) && Balanced(LoadOf(r)) && LoadOf(r) == AddLoad(LoadOf(t))
      && forall k :: Lookup(ops, r, k) == if ops.Same(e.key, k) then Some(e.value) else Lookup(ops, t, k)
  {
    hide Sound, Lookup, Grown, InPlace, Lawful, Distinct, Balanced, MustGrow, GrowLoad;
    AddKeepsBalance(LoadOf(t));
    GrownCorrect(ops, t);
    var g := Grown(ops, t);
    PutNodeSound(ops, g, e);
    forall k
      ensures Lookup(ops, PutNode(ops, g, e), k) == if ops.Same(e.key, k) then Some(e.value) else Lookup(ops, t, k)
    {
      PutNodeLookup(ops, g, e, k);
    }
  }

  // ---------- changing one bucket ----------

  lemma SetBucketSound<K(!new), V>(ops: Ops<K>, t: Table<K, V>, h: nat, b: seq<Entry<K, V>>)
    requires Lawful(ops) && Shaped(t) && Sound(ops, t) && h < |t.buckets| && Distinct(ops, b)
    requires forall j | 0 <= j < |b| :: BucketOf(ops, t.size, b[j].key) == h
    ensures Sound(ops, SetBucket(t, h, b).(nodes := t.nodes - |t.buckets[h]| + |b|))
  {
    FlattenUpdate(t.buckets, h, b);
  }

  /** Where ToFront puts the entries. */
  lemma ToFrontAt<E>(b: seq<E>, i: nat, j: nat)
    requires i < |b| && j < |b|
    ensures |ToFront(b, i)| == |b| && ToFront(b, i)[j] == b[if j == 0 then i else if j <= i then j - 1 else j]
  {
  }

  lemma ToFrontKeeps<K(!new), V>(ops: Ops<K>, b: seq<Entry<K, V>>, i: nat, k: K)
    requires Lawful(ops) && Distinct(ops, b) && i < |b|
    ensures Distinct(ops, ToFront(b, i)) && LookupIn(ops, ToFront(b, i), k) == LookupIn(ops, b, k)
  {
    var c := ToFront(b, i);
    forall m, n | 0 <= m < n < |c| ensures !ops.Same(c[m].key, c[n].key) {
      ToFrontAt(b, i, m);
      ToFrontAt(b, i, n);
      if m == 0 && n <= i {
        assert !ops.Same(b[n - 1].key, b[i].key);
      }
    }
    var j := Find(ops, b, k);
    if j < |b| {
      var p := if j == i then 0 else if j < i then j + 1 else j;
      ToFrontAt(b, i, p);
      FindOnly(ops, c, k, p);
    } else {
      forall m | 0 <= m < |c| ensures !ops.Same(c[m].key, k) { ToFrontAt(b, i, m); }
      LookupNone(ops, c, k);
    }
  }

  lemma RemoveAtKeeps<K(!new), V>(ops: Ops<K>, b: seq<Entry<K, V>>, i: nat, k: K)
    requires Lawful(ops) && Distinct(ops, b) && i < |b|
    ensures Distinct(ops, RemoveAt(b, i))
    ensures LookupIn(ops, RemoveAt(b, i), k) == if ops.Same(b[i].key, k) then None else LookupIn(ops, b, k)
  {
    var c := RemoveAt(b, i);
    assert forall m | 0 <= m < |c| :: c[m] == b[if m < i then m else m + 1];
    var j := Find(ops, b, k);
    if ops.Same(b[i].key, k) {
      forall m | 0 <= m < |c| ensures !ops.Same(c[m].key, k) {
        var n := if m < i then m else m + 1;
        assert c[m] == b[n];
        SameFlips(ops, b[n].key, b[i].key);
        NotSame(ops, b[i].key, b[n].key, k);
      }
      LookupNone(ops, c, k);
    } else if j < |b| {
      FindOnly(ops, c, k, if j < i then j else j - 1);
    } else {
      LookupNone(ops, c, k);
    }
  }

  /** Replacing the front entry by one with the same key. */
  lemma ReplaceFront<K(!new), V>(ops: Ops<K>, b: seq<Entry<K, V>>, e: Entry<K, V>, k: K)
    requires Lawful(ops) && Distinct(ops, b) && b != [] && ops.Same(b[0].key, e.key)
    ensures Distinct(ops, [e] + b[1..])
    ensures LookupIn(ops, [e] + b[1..], k) == if ops.Same(e.key, k) then Some(e.value) else LookupIn(ops, b, k)
  {
    var c := [e] + b[1..];
    forall m, n | 0 <= m < n < |c| ensures !ops.Same(c[m].key, c[n].key) {
      assert c[n] == b[n];
      if m > 0 { assert c[m] == b[m]; }
      else { SameAlike(ops, b[0].key, e.key, b[n].key); }
    }
    FindCons(ops, e, b[1..], k);
    assert b == [b[0]] + b[1..];
    FindCons(ops, b[0], b[1..], k);
    if ops.Same(b[0].key, k) { assert ops.Same(k, b[0].key) && ops.Same(k, e.key); }
  }

  // ---------- the operations on the map ----------

  /** A lookup may move a node to the front, and that changes nothing that can be looked up. */
  lemma NodeGetCorrect<K(!new), V>(ops: Ops<K>, t: Table<K, V>, k: K)
    requires Lawful(ops) && Shaped(t) && Sound(ops, t)
    ensures var (u, hit) := NodeGet(ops, t, k);
      && Sound(ops, u) && LoadOf(u) == LoadOf(t) && (hit.Some? <==> Lookup(ops, t, k).Some?)
      && (hit.Some? ==>
           && ops.Same(hit.value.key, k) && Lookup(ops, t, k) == Some(hit.value.value)
           && u.buckets[BucketOf(ops, t.size, k)] != [] && u.buckets[BucketOf(ops, t.size, k)][0] == hit.value)
      && forall x :: Lookup(ops, u, x) == Lookup(ops, t, x)
  {
    var h := BucketOf(ops, t.size, k);
    var b := t.buckets[h];
    var i := Find(ops, b, k);
    if i < |b| {
      var c := ToFront(b, i);
      forall j | 0 <= j < |c| ensures BucketOf(ops, t.size, c[j].key) == h { ToFrontAt(b, i, j); }
      ToFrontKeeps(ops, b, i, k);
      SetBucketSound(ops, t, h, c);
      var u := SetBucket(t, h, c);
      assert u == u.(nodes := t.nodes - |b| + |c|);
      forall x ensures Lookup(ops, u, x) == Lookup(ops, t, x) { ToFrontKeeps(ops, b, i, x); }
    }
  }

  /** Overwriting the node that a lookup has just moved to the front. */
  lemma OverwriteCorrect<K(!new), V>(ops: Ops<K>, u: Table<K, V>, k: K, e: Entry<K, V>)
    requires Lawful(ops) && Shaped(u) && Sound(ops, u) && ops.Same(e.key, k)
    requires var b := u.buckets[BucketOf(ops, u.size, k)]; b != [] && ops.Same(b[0].key, k)
    ensures var r := Overwrite(u, BucketOf(ops, u.size, k), e);
      && Sound(ops, r) && LoadOf(r) == LoadOf(u)
      && forall x :: Lookup(ops, r, x) == if ops.Same(k, x) then Some(e.value) else Lookup(ops, u, x)
  {
    var h := BucketOf(ops, u.size, k);
    var b := u.buckets[h];
    var c := [e] + b[1..];
    SameFlips(ops, k, e.key);
    SameAlike(ops, b[0].key, k, e.key);
    ReplaceFront(ops, b, e, k);
    SetBucketSound(ops, u, h, c);
    var r := SetBucket(u, h, c);
    assert r == r.(nodes := u.nodes - |b| + |c|);
    forall x ensures Lookup(ops, r, x) == if ops.Same(k, x) then Some(e.value) else Lookup(ops, u, x) {
      SameAlike(ops, e.key, k, x);
      ReplaceFront(ops, b, e, x);
    }
  }

  /** ecore_hash_set is map update, keeps the table balanced, and costs what AddLoad says. */
  lemma SetIsUpdate<K(!new), V>(ops: Ops<K>, t: Table<K, V>, k: K, v: V)
    requires Lawful(ops) && Shaped(t) && Valid(ops, t)
    ensures var r := Set(ops, t, k, v);
      && Valid(ops, r)
      && LoadOf(r) == (if Lookup(ops, t, k).Some? then LoadOf(t) else AddLoad(LoadOf(t)))
      && forall x :: Lookup(ops, r, x) == if ops.Same(k, x) then Some(v) else Lookup(ops, t, x)
  {
    assert Shaped(t);
    hide Sound, Lookup, LookupIn, InPlace, Distinct, NodeAdd, NodeGet, Overwrite;
    NodeGetCorrect(ops, t, k);
    var (u, hit) := NodeGet(ops, t, k);
    if hit.Some? {
      OverwriteCorrect(ops, u, k, hit.value.(value := v));
    } else {
      NodeAddCorrect(ops, u, Entry(k, v));
    }
  }

  lemma SameBucket<K(!new)>(ops: Ops<K>, size: nat, a: K, b: K)
    requires Lawful(ops) && ops.Same(a, b) && size < |PRIMES|
    ensures BucketOf(ops, size, a) == BucketOf(ops, size, b)
  {
  }

  lemma SameAlike<K(!new)>(ops: Ops<K>, a: K, b: K, x: K)
    requires Lawful(ops) && ops.Same(a, b)
    ensures ops.Same(a, x) <==> ops.Same(b, x)
  {
    assert ops.Same(b, a);
  }

  /** A key that can be looked up is counted. */
  lemma CountPositive<K, V>(ops: Ops<K>, t: Table<K, V>, k: K)
    requires Shaped(t) && Sound(ops, t)
    ensures t.nodes >= 0 && (Lookup(ops, t, k).Some? ==> t.nodes > 0)
  {
    if Lookup(ops, t, k).Some? {
      var b := t.buckets[BucketOf(ops, t.size, k)];
      FlattenFrom(t.buckets, b[Find(ops, b, k)]);
    }
  }

  /** ecore_hash_remove is map deletion; a miss may shrink the table all the same. */
  lemma RemoveIsDelete<K(!new), V>(ops: Ops<K>, t: Table<K, V>, k: K)
    requires Lawful(ops) && Shaped(t) && Valid(ops, t)
    ensures var r := Remove(ops, t, k);
      && Valid(ops, r)
      && LoadOf(r) == RemoveLoad(LoadOf(t), Lookup(ops, t, k).Some?)
      && forall x :: Lookup(ops, r, x) == if ops.Same(k, x) then None else Lookup(ops, t, x)
  {
    hide Sound, Lookup, Unlinked, Lawful, ShrinkLoad, Balanced, Shrunk, BucketOf, Ops.Same;
    UnlinkedCorrect(ops, t, k);
    CountPositive(ops, t, k);
    RemoveKeepsBalance(LoadOf(t), Lookup(ops, t, k).Some?);
    ShrunkCorrect(ops, Unlinked(ops, t, k));
  }

  /** The resize behind a removal. */
  lemma ShrunkCorrect<K(!new), V>(ops: Ops<K>, t: Table<K, V>)
    requires Lawful(ops) && Shaped(t) && Sound(ops, t) && t.nodes >= 0
    ensures var r := Shrunk(ops, t);
      && Sound(ops, r) && LoadOf(r) == ShrinkLoad(LoadOf(t))
      && forall x :: Lookup(ops, r, x) == Lookup(ops, t, x)
  {
    hide Sound, Lookup, Rehash, InPlace, Lawful, Distinct, Flatten, Room;
    if MustShrink(t.size, t.nodes) {
      RoomBelow(t);
      ResizeCorrect(ops, t, t.size - 1);
    }
  }

  lemma RoomBelow<K, V>(t: Table<K, V>)
    requires t.size < |PRIMES| && MustShrink(t.size, t.nodes) && t.nodes >= 0
    ensures t.size > 0 && Room(Cleared(t, t.size - 1), t.nodes)
  {
  }

  lemma UnlinkedCorrect<K(!new), V>(ops: Ops<K>, t: Table<K, V>, k: K)
    requires Lawful(ops) && Shaped(t) && Sound(ops, t)
    ensures var u := Unlinked(ops, t, k);
      && Sound(ops, u) && u.size == t.size && u.moved == t.moved
      && u.nodes == t.nodes - (if Lookup(ops, t, k).Some? then 1 else 0)
      && forall x :: Lookup(ops, u, x) == if ops.Same(k, x) then None else Lookup(ops, t, x)
  {
    var h := BucketOf(ops, t.size, k);
    var b := t.buckets[h];
    var i := Find(ops, b, k);
    var u := Unlinked(ops, t, k);
    if i < |b| {
      RemoveAtKeeps(ops, b, i, k);
      SetBucketSound(ops, t, h, RemoveAt(b, i));
    }
    forall x ensures Lookup(ops, u, x) == if ops.Same(k, x) then None else Lookup(ops, t, x) {
      if ops.Same(k, x) { SameBucket(ops, t.size, k, x); }
      if i < |b| {
        SameAlike(ops, b[i].key, k, x);
        RemoveAtKeeps(ops, b, i, x);
      } else if ops.Same(k, x) {
        forall j | 0 <= j < |b| ensures !ops.Same(b[j].key, x) {
          SameAlike(ops, k, x, b[j].key);
          SameFlips(ops, k, b[j].key);
          SameFlips(ops, x, b[j].key);
        }
        LookupNone(ops, b, x);
      }
    }
  }

  // ---------- when the table is resized ----------

  lemma ScaledReal(q: real, c: real, y: real)
    requires y > 0.0
    ensures q < c <==> q * y < c * y
  {
    if q < c {
      assert (c - q) * y > 0.0;
    } else {
      assert (q - c) * y >= 0.0;
    }
  }

  lemma ThinExactly(n: nat, p: int)
    requires p > 0
    ensures 8 * n < 9 * p <==> (n as real) / (p as real) < 3.0 * 0.375
  {
    ScaledReal((n as real) / (p as real), 1.125, p as real);
    QuotientBack(n as real, p as real);
    assert 8 * n < 9 * p <==> 8.0 * (n as real) < 9.0 * (p as real);
  }

  lemma QuotientBack(x: real, y: real)
    requires y > 0.0
    ensures x / y * y == x
  {
  }

  /** A new key makes the table grow exactly if there were four nodes a bucket, unless it has the last size; an
      overwritten one never does. */
  lemma SetResizes<K(!new), V>(ops: Ops<K>, t: Table<K, V>, k: K, v: V)
    requires Lawful(ops) && Shaped(t) && Valid(ops, t)
    ensures Set(ops, t, k, v).size
         == if Lookup(ops, t, k).None? && t.size + 1 < |PRIMES| && t.nodes == 4 * Prime(t.size) then t.size + 1
            else t.size
  {
    SetIsUpdate(ops, t, k, v);
    GrowsWhenFull(LoadOf(t));
    hide Set, Lookup, Prime, PRIMES;
  }

  /** A removal, hit or miss, makes the table shrink exactly if what is left has fewer than 9/8 nodes for each
      bucket of the smaller size. */
  lemma RemoveResizes<K(!new), V>(ops: Ops<K>, t: Table<K, V>, k: K)
    requires Lawful(ops) && Shaped(t) && Valid(ops, t)
    ensures var r := Remove(ops, t, k);
      && r.nodes == t.nodes - (if Lookup(ops, t, k).Some? then 1 else 0) && r.nodes >= 0
      && r.size == if t.size > 0 && (r.nodes as real) / (Prime(t.size - 1) as real) < 3.0 * 0.375 then t.size - 1
                   else t.size
  {
    hide Remove, Lookup, Sound, Balanced, RemoveLoad, Lawful;
    RemoveIsDelete(ops, t, k);
    CountPositive(ops, t, k);
    RemoveLoadExactly(LoadOf(t), Lookup(ops, t, k).Some?);
  }

  lemma RemoveLoadExactly(l: Load, hit: bool)
    requires l.size < |PRIMES| && l.nodes >= (if hit then 1 else 0)
    ensures var r, n := RemoveLoad(l, hit), l.nodes - if hit then 1 else 0;
      && r.nodes == n
      && r.size == if l.size > 0 && (n as real) / (Prime(l.size - 1) as real) < 3.0 * 0.375 then l.size - 1 else l.size
  {
    PrimeBounds(l.size);
    if l.size > 0 { ThinExactly(l.nodes - if hit then 1 else 0, Prime(l.size - 1)); }
  }

  // ---------- importing a whole table ----------

  lemma ImportOneCorrect<K(!new), V>(ops: Ops<K>, t: Table<K, V>, e: Entry<K, V>)
    requires Lawful(ops) && Shaped(t) && Valid(ops, t)
    ensures var r := ImportOne(ops, t, e);
      && Valid(ops, r)
      && LoadOf(r) == (if Lookup(ops, t, e.key).Some? then LoadOf(t) else AddLoad(LoadOf(t)))
      && forall x :: Lookup(ops, r, x) == if ops.Same(e.key, x) then Some(e.value) else Lookup(ops, t, x)
  {
    hide Sound, Lookup, LookupIn, InPlace, Distinct, NodeAdd, NodeGet, Overwrite;
    NodeGetCorrect(ops, t, e.key);
    var (u, hit) := NodeGet(ops, t, e.key);
    if hit.Some? {
      assert ops.Same(e.key, e.key);
      OverwriteCorrect(ops, u, e.key, e);
    } else {
      NodeAddCorrect(ops, u, e);
    }
  }

  /** The value of the last entry with the key. */
  ghost function LastIn<K, V>(ops: Ops<K>, s: seq<Entry<K, V>>, k: K): Option<V> {
    if s == [] then None
    else if LastIn(ops, s[1..], k).Some? then LastIn(ops, s[1..], k)
    else if ops.Same(s[0].key, k) then Some(s[0].value) else None
  }

  /** Importing any entries overrides the map by them, the later ones last: the imported table may be of any
      size, and may even have been built by other hash and comparison functions. */
  lemma {:induction false} ImportCorrect<K(!new), V>(ops: Ops<K>, t: Table<K, V>, rest: seq<Entry<K, V>>)
    requires Lawful(ops) && Shaped(t) && Valid(ops, t)
    ensures var r := Import(ops, t, rest);
      && Valid(ops, r)
      && forall x :: Lookup(ops, r, x)
                  == if LastIn(ops, rest, x).Some? then LastIn(ops, rest, x) else Lookup(ops, t, x)
    decreases |rest|
  {
    hide Valid, Sound, Lookup, ImportOne;
    if rest != [] {
      ImportOneCorrect(ops, t, rest[0]);
      ImportCorrect(ops, ImportOne(ops, t, rest[0]), rest[1..]);
    }
  }

  lemma {:induction false} DistinctLast<K(!new), V>(ops: Ops<K>, s: seq<Entry<K, V>>, k: K)
    requires Lawful(ops) && Distinct(ops, s)
    ensures LastIn(ops, s, k) == LookupIn(ops, s, k)
    decreases |s|
  {
    hide Lawful, LookupIn, Distinct;
    if s == [] {
      LookupNone(ops, s, k);
    } else {
      DistinctTail(ops, s);
      DistinctLast(ops, s[1..], k);
      assert s == [s[0]] + s[1..];
      FindCons(ops, s[0], s[1..], k);
      if ops.Same(s[0].key, k) { TailMisses(ops, s, k); }
    }
  }

  lemma {:induction false} LastAlike<K, V>(ops: Ops<K>, ops2: Ops<K>, s: seq<Entry<K, V>>, k: K)
    requires forall a, b :: ops.Same(a, b) <==> ops2.Same(a, b)
    ensures LastIn(ops, s, k) == LastIn(ops2, s, k)
    decreases |s|
  {
    if s != [] { LastAlike(ops, ops2, s[1..], k); }
  }

  /** ecore_hash_hash_set for tables that tell the same keys apart, however each of them hashes: the first map
      overridden by the second. */
  lemma ImportIsOverride<K(!new), V>(ops: Ops<K>, t: Table<K, V>, ops2: Ops<K>, set_: Table<K, V>)
    requires Lawful(ops) && Shaped(t) && Valid(ops, t)
    requires Lawful(ops2) && Shaped(set_) && Sound(ops2, set_)
    requires forall a, b :: ops.Same(a, b) <==> ops2.Same(a, b)
    ensures var r := Import(ops, t, Flatten(set_.buckets));
      && Valid(ops, r)
      && forall x ::
           Lookup(ops, r, x) == if Lookup(ops2, set_, x).Some? then Lookup(ops2, set_, x) else Lookup(ops, t, x)
  {
    SoundParts(ops2, set_);
    hide Sound, Lookup, LookupIn, InPlace, Distinct, Import, Lawful, Valid;
    FlatDistinct(ops2, set_, 0);
    assert set_.buckets[0..] == set_.buckets;
    ImportCorrect(ops, t, Flatten(set_.buckets));
    forall x ensures LastIn(ops, Flatten(set_.buckets), x) == Lookup(ops2, set_, x) {
      LastAlike(ops, ops2, Flatten(set_.buckets), x);
      DistinctLast(ops2, Flatten(set_.buckets), x);
      LookupFlat(ops2, set_, x);
    }
  }

  /** The buckets together list the map: every key once, and as many entries as nodes says. */
  lemma NodesIsSize<K(!new), V>(ops: Ops<K>, t: Table<K, V>)
    requires Lawful(ops) && Valid(ops, t)
    ensures var s := Flatten(t.buckets);
      && t.nodes == |s| && Distinct(ops, s)
      && forall k :: LookupIn(ops, s, k) == Lookup(ops, t, k)
  {
    FlatDistinct(ops, t, 0);
    assert t.buckets[0..] == t.buckets;
    forall k ensures LookupIn(ops, Flatten(t.buckets), k) == Lookup(ops, t, k) { LookupFlat(ops, t, k); }
  }

  // ---------- whole runs ----------

  datatype Op<K, V> = DoSet(key: K, value: V) | DoGet(key: K) | DoRemove(key: K) | DoImport(entries: Table<K, V>)

  ghost function Do<K, V>(ops: Ops<K>, t: Table<K, V>, op: Op<K, V>): (r: Table<K, V>)
    requires Shaped(t)
    ensures Shaped(r)
  {
    match op
    case DoSet(k, v) => Set(ops, t, k, v)
    case DoGet(k) => NodeGet(ops, t, k).0
    case DoRemove(k) => Remove(ops, t, k)
    case DoImport(s) => Import(ops, t, Flatten(s.buckets))
  }

  /** The table after a run, starting from a new one. */
  ghost function After<K, V>(ops: Ops<K>, run: seq<Op<K, V>>): (r: Table<K, V>)
    ensures Shaped(r)
  {
    if run == [] then Empty() else Do(ops, After(ops, run[..|run| - 1]), run[|run| - 1])
  }

  /** What one operation does to the entry of k in a finite map. */
  ghost function MapOp<K, V>(ops: Ops<K>, was: Option<V>, op: Op<K, V>, k: K): Option<V>
  {
    match op
    case DoSet(key, v) => if ops.Same(key, k) then Some(v) else was
    case DoGet(_) => was
    case DoRemove(key) => if ops.Same(key, k) then None else was
    case DoImport(s) =>
      var last := LastIn(ops, Flatten(s.buckets), k);
      if last.Some? then last else was
  }

  /** What a finite map would give for k after the run. */
  ghost function Latest<K, V>(ops: Ops<K>, run: seq<Op<K, V>>, k: K): Option<V>
  {
    if run == [] then None else MapOp(ops, Latest(ops, run[..|run| - 1], k), run[|run| - 1], k)
  }

  lemma EmptyValid<K(!new), V>(ops: Ops<K>)
    ensures Valid<K, V>(ops, Empty()) && forall k :: Lookup<K, V>(ops, Empty(), k) == None
  {
    assert Empty<K, V>() == Cleared(Empty<K, V>(), 0);
    ClearedSound<K, V>(ops, Empty(), 0);
  }

  /** In every run the table is the finite map, and it is balanced after every operation. */
  lemma {:induction false} RunIsMap<K(!new), V>(ops: Ops<K>, run: seq<Op<K, V>>)
    requires Lawful(ops)
    ensures Valid(ops, After(ops, run))
    ensures forall k :: Lookup(ops, After(ops, run), k) == Latest(ops, run, k)
    decreases |run|
  {
    if run == [] {
      EmptyValid<K, V>(ops);
    } else {
      var rest, op := run[..|run| - 1], run[|run| - 1];
      RunIsMap(ops, rest);
      OpIsMapOp(ops, After(ops, rest), op);
    }
  }

  lemma OpIsMapOp<K(!new), V>(ops: Ops<K>, t: Table<K, V>, op: Op<K, V>)
    requires Lawful(ops) && Shaped(t) && Valid(ops, t)
    ensures var r := Do(ops, t, op);
      && Valid(ops, r)
      && forall k :: Lookup(ops, r, k) == MapOp(ops, Lookup(ops, t, k), op, k)
  {
    hide Sound, Lookup, Set, Remove, NodeGet, Import, Balanced;
    match op
    case DoSet(key, v) => SetIsUpdate(ops, t, key, v);
    case DoGet(key) => NodeGetCorrect(ops, t, key);
    case DoRemove(key) => RemoveIsDelete(ops, t, key);
    case DoImport(s) => ImportCorrect(ops, t, Flatten(s.buckets));
  }

  /** One for an operation on a key; an import counts every entry. */
  ghost function Work<K, V>(run: seq<Op<K, V>>): nat {
    if run == [] then 0
    else
      var op := run[|run| - 1];
      Work(run[..|run| - 1]) + if op.DoImport? then |Flatten(op.entries.buckets)| else 1
  }

  /** Over any run, all rehashes together move at most three nodes for each set, get, remove and entry
      imported. */
  lemma MovesAreFew<K(!new), V>(ops: Ops<K>, run: seq<Op<K, V>>)
    requires Lawful(ops)
    ensures After(ops, run).moved <= 3 * Work(run)
    ensures (forall op | op in run :: !op.DoImport?) ==> Work(run) == |run|
  {
    MovesAndCredit(ops, run);
    if forall op | op in run :: !op.DoImport? { WorkIsLength(run); }
  }

  lemma {:induction false} WorkIsLength<K, V>(run: seq<Op<K, V>>)
    requires forall op | op in run :: !op.DoImport?
    ensures Work(run) == |run|
    decreases |run|
  {
    if run != [] { WorkIsLength(run[..|run| - 1]); }
  }

  lemma {:induction false} MovesAndCredit<K(!new), V>(ops: Ops<K>, run: seq<Op<K, V>>)
    requires Lawful(ops)
    ensures var t := After(ops, run);
      Valid(ops, t) && 8 * t.moved + Credit(t.size, t.nodes) <= 24 * Work(run)
    decreases |run|
  {
    hide Valid, Credit, Do, Flatten;
    if run == [] {
      EmptyValid<K, V>(ops);
      EmptyCredit<K, V>();
    } else {
      var rest, op := run[..|run| - 1], run[|run| - 1];
      MovesAndCredit(ops, rest);
      OpPays(ops, After(ops, rest), op);
    }
  }

  lemma EmptyCredit<K, V>()
    ensures var t := Empty<K, V>(); Shaped(t) && t.moved == 0 && Credit(t.size, t.nodes) == 0
  {
  }

  /** Every operation pays for its moves: three for itself, or for every entry it imports. */
  lemma OpPays<K(!new), V>(ops: Ops<K>, t: Table<K, V>, op: Op<K, V>)
    requires Lawful(ops) && Shaped(t) && Valid(ops, t)
    ensures var r := Do(ops, t, op);
      && Valid(ops, r)
      && 8 * r.moved + Credit(r.size, r.nodes) <=
         8 * t.moved + Credit(t.size, t.nodes) + 24 * if op.DoImport? then |Flatten(op.entries.buckets)| else 1
  {
    if op.DoRemove? { CountPositive(ops, t, op.key); }
    hide Sound, Lookup, Set, Remove, NodeGet, Import, Balanced, Credit, AddLoad, RemoveLoad, Flatten;
    match op {
      case DoSet(key, v) =>
        SetIsUpdate(ops, t, key, v);
        AddPays(LoadOf(t));
      case DoGet(key) => NodeGetCorrect(ops, t, key);
      case DoRemove(key) =>
        RemoveIsDelete(ops, t, key);
        RemovePays(LoadOf(t), Lookup(ops, t, key).Some?);
      case DoImport(s) => ImportPays(ops, t, Flatten(s.buckets));
    }
  }

  lemma {:induction false} ImportPays<K(!new), V>(ops: Ops<K>, t: Table<K, V>, rest: seq<Entry<K, V>>)
    requires Lawful(ops) && Shaped(t) && Valid(ops, t)
    ensures var r := Import(ops, t, rest);
      && Valid(ops, r)
      && 8 * r.moved + Credit(r.size, r.nodes) <= 8 * t.moved + Credit(t.size, t.nodes) + 24 * |rest|
    decreases |rest|
  {
    hide Sound, Lookup, Balanced, Credit, AddLoad, ImportOne;
    if rest != [] {
      ImportOneCorrect(ops, t, rest[0]);
      AddPays(LoadOf(t));
      ImportPays(ops, ImportOne(ops, t, rest[0]), rest[1..]);
    }
  }
}
