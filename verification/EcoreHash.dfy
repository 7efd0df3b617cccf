/** ecore_hash.c with its linked nodes and its bucket array, proved to do what HashModel says. */
module EcoreHash {
  import opened Basics
  import opened HashModel
  import HashProofs

  class HashNode<K, V> {
    var next: HashNode?<K, V>
    var key: K
    var value: V
    /** The bucket the node is in. */
    ghost var home: nat

    constructor (key: K, value: V)
      ensures this.key == key && this.value == value && next == null
    {
      this.key, this.value, next, home := key, value, null, 0;
    }
  }

  /** s is the chain that starts at head, lies in bucket h and holds the entries b. */
  ghost predicate Chain<K, V>(h: nat, head: HashNode?<K, V>, s: seq<HashNode<K, V>>, b: seq<Entry<K, V>>)
    reads s
  {
    && |b| == |s|
    && head == (if s == [] then null else s[0])
    && (forall j {:trigger s[j].next} | 0 <= j < |s| :: s[j].next == if j + 1 < |s| then s[j + 1] else null)
    && (forall j | 0 <= j < |s| :: s[j].home == h && Entry(s[j].key, s[j].value) == b[j])
    && (forall i, j | 0 <= i < j < |s| :: s[i] != s[j])
  }

  /** The rows of the bucket array a are the chains cs with the entries es, made of nodes in repr. */
  ghost predicate Rows<K, V>(a: array<HashNode?<K, V>>, cs: seq<seq<HashNode<K, V>>>, es: seq<seq<Entry<K, V>>>,
                             repr: set<HashNode<K, V>>)
    reads a, repr
  {
    && |cs| == a.Length && |es| == a.Length
    && (forall r, j | 0 <= r < |cs| && 0 <= j < |cs[r]| :: cs[r][j] in repr)
    && (forall r | 0 <= r < |cs| :: Chain(r, a[r], cs[r], es[r]))
  }

  /** Row r has been rebuilt from its own nodes, the other rows have not been touched. */
  twostate lemma RowRebuilt<K, V>(a: array<HashNode?<K, V>>, new cs: seq<seq<HashNode<K, V>>>,
                                  new es: seq<seq<Entry<K, V>>>,
                                  new repr: set<HashNode<K, V>>, new r: nat, new s: seq<HashNode<K, V>>,
                                  new b: seq<Entry<K, V>>, new left: set<HashNode<K, V>>)
    requires old(allocated(cs) && allocated(es) && allocated(repr)) && old(Rows(a, cs, es, repr))
    requires r < |cs| && Chain(r, a[r], s, b)
    requires forall j | 0 <= j < a.Length && j != r :: a[j] == old(a[j])
    requires forall x | x in repr && x !in cs[r] :: unchanged(x)
    requires left <= repr && (forall x | x in repr && x !in left :: x in cs[r])
    requires forall j | 0 <= j < |s| :: s[j] in left
    ensures Rows(a, cs[r := s], es[r := b], left)
  {
    var ds, fs := cs[r := s], es[r := b];
    forall i | 0 <= i < |ds| ensures Chain(i, a[i], ds[i], fs[i]) {
      if i != r { RowApart(a, cs, es, repr, r, i); }
    }
    forall i, j | 0 <= i < |ds| && 0 <= j < |ds[i]| ensures ds[i][j] in left {
      if i != r { RowApart(a, cs, es, repr, r, i); }
    }
  }

  /** The nodes of row i are not in row r. */
  twostate lemma RowApart<K, V>(a: array<HashNode?<K, V>>, new cs: seq<seq<HashNode<K, V>>>,
                                new es: seq<seq<Entry<K, V>>>, new repr: set<HashNode<K, V>>,
                                new r: nat, new i: nat)
    requires old(allocated(cs) && allocated(es) && allocated(repr)) && old(Rows(a, cs, es, repr)) && r < |cs|
             && i < |cs| && i != r
    ensures forall j | 0 <= j < |cs[i]| :: cs[i][j] !in cs[r]
    ensures old(Chain(i, a[i], cs[i], es[i]))
  {
    forall j | 0 <= j < |cs[i]| ensures cs[i][j] !in cs[r] {
      assert old(cs[i][j].home) == i;
      assert old(Chain(r, a[r], cs[r], es[r]));
    }
  }

  /** Takes the first node off row r. */
  method PopRow<K, V>(a: array<HashNode?<K, V>>, r: nat, ghost cs: seq<seq<HashNode<K, V>>>,
                      ghost es: seq<seq<Entry<K, V>>>, ghost repr: set<HashNode<K, V>>)
      returns (node: HashNode<K, V>)
    requires Rows(a, cs, es, repr) && r < a.Length && a[r] != null
    modifies a, repr`next
    ensures node == old(a[r]) && cs[r] != [] && node == cs[r][0] && node in repr
    ensures es[r] != [] && Entry(node.key, node.value) == es[r][0]
    ensures Rows(a, cs[r := cs[r][1..]], es[r := es[r][1..]], repr - {node})
  {
    assert Chain(r, a[r], cs[r], es[r]);
    node := a[r];
    assert node == cs[r][0];
    a[r] := node.next;
    node.next := null;
    ChainTail(r, cs[r], es[r]);
    RowRebuilt(a, cs, es, repr, r, cs[r][1..], es[r][1..], repr - {node});
  }

  twostate lemma ChainTail<K, V>(new h: nat, new s: seq<HashNode<K, V>>, new b: seq<Entry<K, V>>)
    requires old(allocated(s) && allocated(b)) && s != [] && old(Chain(h, s[0], s, b))
    requires forall j | 1 <= j < |s| :: unchanged(s[j])
    ensures Chain(h, old(s[0].next), s[1..], b[1..])
  {
    var c := s[1..];
    forall j | 0 <= j < |c| ensures c[j].next == (if j + 1 < |c| then c[j + 1] else null) && c[j].home == h {
      assert c[j] == s[j + 1] && unchanged(s[j + 1]);
    }
  }

  /** Puts a node in front of row r. */
  method PushRow<K, V>(a: array<HashNode?<K, V>>, r: nat, node: HashNode<K, V>, ghost cs: seq<seq<HashNode<K, V>>>,
                       ghost es: seq<seq<Entry<K, V>>>, ghost repr: set<HashNode<K, V>>)
    requires Rows(a, cs, es, repr) && r < a.Length && node !in repr
    modifies a, node`next, node`home
    ensures Rows(a, cs[r := [node] + cs[r]], es[r := [Entry(node.key, node.value)] + es[r]], repr + {node})
  {
    assert Chain(r, a[r], cs[r], es[r]);
    node.next := a[r];
    node.home := r;
    a[r] := node;
    ghost var e := Entry(node.key, node.value);
    ChainCons(r, node, cs[r], es[r], e);
    forall i | 0 <= i < |cs| && i != r ensures Chain(i, a[i], cs[i], es[i]) {
      assert old(Chain(i, a[i], cs[i], es[i]));
    }
  }

  lemma ChainCons<K, V>(h: nat, node: HashNode<K, V>, s: seq<HashNode<K, V>>, b: seq<Entry<K, V>>, e: Entry<K, V>)
    requires Chain(h, node.next, s, b) && node !in s && node.home == h && e == Entry(node.key, node.value)
    ensures Chain(h, node, [node] + s, [e] + b)
  {
    var c := [node] + s;
    forall j | 0 <= j < |c| ensures c[j].next == if j + 1 < |c| then c[j + 1] else null {
      if j > 0 { assert c[j] == s[j - 1]; }
    }
  }

  /** _ecore_hash_bucket_get: the first node of the chain with the key, taken out of the chain unless it is at
      its front. */
  method BucketGet<K, V>(ops: Ops<K>, bucket: HashNode?<K, V>, key: K,
                         ghost h: nat, ghost s: seq<HashNode<K, V>>, ghost b: seq<Entry<K, V>>)
      returns (node: HashNode?<K, V>, ghost i: nat)
    requires Chain(h, bucket, s, b)
    modifies s`next
    ensures i == Find(ops, b, key) && node == if i < |s| then s[i] else null
    ensures 0 < i < |s| ==> Chain(h, bucket, RemoveAt(s, i), RemoveAt(b, i))
    ensures i == 0 || i == |s| ==> Chain(h, bucket, s, b)
  {
    var prev: HashNode? := null;
    node := bucket;
    i := 0;
    while node != null && ops.compare(node.key, key) != 0
      invariant i <= |s| && node == if i < |s| then s[i] else null
      invariant prev == if i > 0 then s[i - 1] else null
      invariant forall j | 0 <= j < i :: !ops.Same(b[j].key, key)
      decreases |s| - i
    {
      prev := node;
      node := node.next;
      i := i + 1;
    }
    FindFirst(ops, b, key, i);
    if node != null && prev != null {
      prev.next := node.next;
      node.next := null;
      ChainWithout(h, bucket, s, b, i);
    }
  }

  lemma FindFirst<K, V>(ops: Ops<K>, b: seq<Entry<K, V>>, k: K, i: nat)
    requires i <= |b| && (forall j | 0 <= j < i :: !ops.Same(b[j].key, k)) && (i < |b| ==> ops.Same(b[i].key, k))
    ensures Find(ops, b, k) == i
  {
    var n := Find(ops, b, k);
    assert n < |b| ==> ops.Same(b[n].key, k);
  }

  /** Node i has been cut out. */
  twostate lemma ChainWithout<K, V>(new h: nat, new head: HashNode?<K, V>, new s: seq<HashNode<K, V>>,
                                    new b: seq<Entry<K, V>>, new i: nat)
    requires old(allocated(head) && allocated(s) && allocated(b)) && 0 < i < |s| && old(Chain(h, head, s, b))
    requires s[i - 1].next == old(s[i].next)
    requires forall j {:trigger s[j].next} | 0 <= j < |s| && j != i && j != i - 1 :: s[j].next == old(s[j].next)
    requires forall j {:trigger s[j].home} | 0 <= j < |s| && j != i ::
               s[j].home == old(s[j].home) && s[j].key == old(s[j].key) && s[j].value == old(s[j].value)
    ensures Chain(h, head, RemoveAt(s, i), RemoveAt(b, i))
  {
    var c, d := RemoveAt(s, i), RemoveAt(b, i);
    forall j | 0 <= j < |c| ensures c[j].home == h && Entry(c[j].key, c[j].value) == d[j] {
      var k := if j < i then j else j + 1;
      assert c[j] == s[k] && d[j] == b[k] && k != i;
      assert old(s[k].home == h && Entry(s[k].key, s[k].value) == b[k]);
    }
    forall j, k | 0 <= j < k < |c| ensures c[j] != c[k] {
      assert c[j] == s[if j < i then j else j + 1] && c[k] == s[if k < i then k else k + 1];
    }
    forall j {:trigger c[j].next} | 0 <= j < |c|
      ensures c[j].next == if j + 1 < |c| then c[j + 1] else null
    {
      assert c[j] == s[if j < i then j else j + 1];
      if j == i - 1 { assert s[i].next == s[i].next; }
    }
  }

  /** Searches row h, and moves a hit to its front. */
  method GetFromRow<K, V>(ops: Ops<K>, a: array<HashNode?<K, V>>, h: nat, key: K, ghost cs: seq<seq<HashNode<K, V>>>,
                          ghost es: seq<seq<Entry<K, V>>>, ghost repr: set<HashNode<K, V>>)
      returns (node: HashNode?<K, V>, ghost i: nat)
    requires Rows(a, cs, es, repr) && h < a.Length
    modifies a, cs[h]`next, cs[h]`home
    ensures i == Find(ops, es[h], key)
    ensures i == |es[h]| ==> node == null && Rows(a, cs, es, repr)
    ensures i < |es[h]| ==> |cs[h]| == |es[h]| && node == cs[h][i]
    ensures i < |es[h]| ==> node in repr && Entry(node.key, node.value) == es[h][i]
    ensures i < |es[h]| ==> Rows(a, cs[h := ToFront(cs[h], i)], es[h := ToFront(es[h], i)], repr)
  {
    hide Rows, Chain, ToFront, RemoveAt;
    RowAt(a, cs, es, repr, h);
    node, i := FindInRow(ops, a, h, key, cs, es, repr);
    if node != null && node != a[h] {
      PushRow(a, h, node, cs[h := RemoveAt(cs[h], i)], es[h := RemoveAt(es[h], i)], repr - {node});
      ReadyToFront(cs, h, i);
      ReadyToFront(es, h, i);
      assert repr - {node} + {node} == repr;
    } else if i < |es[h]| {
      FrontAlready(cs, h);
      FrontAlready(es, h);
    }
  }

  lemma RowAt<K, V>(a: array<HashNode?<K, V>>, cs: seq<seq<HashNode<K, V>>>, es: seq<seq<Entry<K, V>>>,
                    repr: set<HashNode<K, V>>, h: nat)
    requires Rows(a, cs, es, repr) && h < a.Length
    ensures |cs| == |es| == a.Length && |cs[h]| == |es[h]| && a[h] == (if cs[h] == [] then null else cs[h][0])
    ensures forall j | 0 <= j < |cs[h]| :: cs[h][j] in repr && Entry(cs[h][j].key, cs[h][j].value) == es[h][j]
    ensures forall j, l | 0 <= j < l < |cs[h]| :: cs[h][j] != cs[h][l]
  {
    assert Chain(h, a[h], cs[h], es[h]);
  }

  /** The search of GetFromRow; a hit behind the front is out of its row afterwards. */
  method FindInRow<K, V>(ops: Ops<K>, a: array<HashNode?<K, V>>, h: nat, key: K, ghost cs: seq<seq<HashNode<K, V>>>,
                         ghost es: seq<seq<Entry<K, V>>>, ghost repr: set<HashNode<K, V>>)
      returns (node: HashNode?<K, V>, ghost i: nat)
    requires Rows(a, cs, es, repr) && h < a.Length
    modifies cs[h]`next
    ensures i == Find(ops, es[h], key) && |cs[h]| == |es[h]| && node == (if i < |cs[h]| then cs[h][i] else null)
    ensures 0 < i < |es[h]| ==> Rows(a, cs[h := RemoveAt(cs[h], i)], es[h := RemoveAt(es[h], i)], repr - {node})
    ensures i == 0 || i == |es[h]| ==> Rows(a, cs, es, repr)
  {
    hide RemoveAt, Rows;
    RowAt(a, cs, es, repr, h);
    RowChain(a, cs, es, repr, h);
    ghost var s, b := cs[h], es[h];
    label before:
    node, i := BucketGet(ops, a[h], key, h, s, b);
    if 0 < i < |b| {
      WithoutMember(s, i, repr);
      RowRebuilt@before(a, cs, es, repr, h, RemoveAt(s, i), RemoveAt(b, i), repr - {node});
    } else {
      RowRebuilt@before(a, cs, es, repr, h, s, b, repr);
      assert cs[h := s] == cs && es[h := b] == es;
    }
  }

  lemma RowChain<K, V>(a: array<HashNode?<K, V>>, cs: seq<seq<HashNode<K, V>>>, es: seq<seq<Entry<K, V>>>,
                       repr: set<HashNode<K, V>>, h: nat)
    requires Rows(a, cs, es, repr) && h < a.Length
    ensures h < |cs| == |es| && Chain(h, a[h], cs[h], es[h])
  {
  }

  lemma ReadyToFront<X>(xs: seq<seq<X>>, h: nat, i: nat)
    requires h < |xs| && i < |xs[h]|
    ensures var w := xs[h := RemoveAt(xs[h], i)]; w[h := [xs[h][i]] + w[h]] == xs[h := ToFront(xs[h], i)]
  {
    var x := xs[h];
    assert [x[i]] + RemoveAt(x, i) == ToFront(x, i);
  }

  lemma FrontAlready<X>(xs: seq<seq<X>>, h: nat)
    requires h < |xs| && xs[h] != []
    ensures xs[h := ToFront(xs[h], 0)] == xs
  {
    assert ToFront(xs[h], 0) == xs[h];
  }

  lemma WithoutMember<N>(s: seq<N>, i: nat, all: set<N>)
    requires i < |s| && (forall j | 0 <= j < |s| :: s[j] in all) && forall j, l | 0 <= j < l < |s| :: s[j] != s[l]
    ensures forall j | 0 <= j < |RemoveAt(s, i)| :: RemoveAt(s, i)[j] in all - {s[i]}
  {
  }

  lemma WithoutNode<N>(s: seq<N>, i: nat, all: set<N>)
    requires i < |s| && forall j | 0 <= j < |s| :: s[j] in all
    ensures forall j | 0 <= j < |RemoveAt(s, i)| :: RemoveAt(s, i)[j] in all
  {
  }

  /** Gives the front node of row h another key and value. */
  method RewriteFront<K, V>(node: HashNode<K, V>, key: K, value: V, ghost a: array<HashNode?<K, V>>, ghost h: nat,
                            ghost cs: seq<seq<HashNode<K, V>>>, ghost es: seq<seq<Entry<K, V>>>,
                            ghost repr: set<HashNode<K, V>>)
    requires Rows(a, cs, es, repr) && h < a.Length && cs[h] != [] && node == cs[h][0]
    modifies node`key, node`value
    ensures es[h] != [] && Rows(a, cs, es[h := [Entry(key, value)] + es[h][1..]], repr)
  {
    assert Chain(h, a[h], cs[h], es[h]);
    label before:
    node.key, node.value := key, value;
    RowRebuilt@before(a, cs, es, repr, h, cs[h], [Entry(key, value)] + es[h][1..], repr);
    assert cs[h := cs[h]] == cs;
  }

  /** Cuts node i out of row h; list is the node in front of it, or the node itself when it is the first. */
  method Cut<K, V>(a: array<HashNode?<K, V>>, h: nat, list: HashNode?<K, V>, node: HashNode<K, V>, ghost i: nat,
                   ghost cs: seq<seq<HashNode<K, V>>>, ghost es: seq<seq<Entry<K, V>>>, ghost repr: set<HashNode<K, V>>)
    requires Rows(a, cs, es, repr) && h < a.Length && i < |cs[h]| == |es[h]|
    requires node == cs[h][i] && list == if i > 0 then cs[h][i - 1] else node
    modifies a, cs[h]`next
    ensures Rows(a, cs[h := RemoveAt(cs[h], i)], es[h := RemoveAt(es[h], i)], repr)
  {
    hide Rows;
    RowAt(a, cs, es, repr, h);
    RowChain(a, cs, es, repr, h);
    ghost var s, b := cs[h], es[h];
    label before:
    if list == node {
      a[h] := node.next;
      assert RemoveAt(s, 0) == s[1..] && RemoveAt(b, 0) == b[1..];
      ChainTail@before(h, s, b);
    } else {
      list.next := node.next;
      ChainWithout@before(h, a[h], s, b, i);
    }
    WithoutNode(s, i, repr);
    RowRebuilt@before(a, cs, es, repr, h, RemoveAt(s, i), RemoveAt(b, i), repr);
  }

  /** Searches row h with a trailing pointer, as ecore_hash_remove does, and cuts a hit out of the row. */
  method CutFromRow<K, V>(ops: Ops<K>, a: array<HashNode?<K, V>>, h: nat, key: K, ghost cs: seq<seq<HashNode<K, V>>>,
                          ghost es: seq<seq<Entry<K, V>>>, ghost repr: set<HashNode<K, V>>)
      returns (node: HashNode?<K, V>, ghost i: nat)
    requires Rows(a, cs, es, repr) && h < a.Length
    modifies a, cs[h]`next
    ensures i == Find(ops, es[h], key) && |cs[h]| == |es[h]|
    ensures i == |es[h]| ==> node == null && Rows(a, cs, es, repr)
    ensures i < |es[h]| ==> node == cs[h][i] && Entry(node.key, node.value) == es[h][i]
    ensures i < |es[h]| ==> Rows(a, cs[h := RemoveAt(cs[h], i)], es[h := RemoveAt(es[h], i)], repr)
  {
    hide Rows;
    RowAt(a, cs, es, repr, h);
    RowChain(a, cs, es, repr, h);
    ghost var s, b := cs[h], es[h];
    var list := a[h];
    node := list;
    i := 0;
    while node != null && ops.compare(node.key, key) != 0
      invariant i <= |s| && node == if i < |s| then s[i] else null
      invariant list == if i > 0 then s[i - 1] else a[h]
      invariant forall j | 0 <= j < i :: !ops.Same(b[j].key, key)
      decreases |s| - i
    {
      list := node;
      node := node.next;
      i := i + 1;
    }
    FindFirst(ops, b, key, i);
    if node != null {
      Cut(a, h, list, node, i, cs, es, repr);
    }
  }

  lemma {:induction false} FlattenPop<E>(es: seq<seq<E>>, i: nat)
    requires i < |es| && es[i] != [] && forall r | 0 <= r < i :: es[r] == []
    ensures Flatten(es) == [es[i][0]] + Flatten(es[i := es[i][1..]])
    decreases i
  {
    var fs := es[i := es[i][1..]];
    if i == 0 {
      assert fs[1..] == es[1..];
    } else {
      FlattenPop(es[1..], i - 1);
      assert fs[1..] == es[1..][i - 1 := es[1..][i - 1][1..]];
    }
  }

  lemma {:induction false} FlattenNone<E>(es: seq<seq<E>>)
    requires forall r | 0 <= r < |es| :: es[r] == []
    ensures Flatten(es) == []
    decreases |es|
  {
    if es != [] { FlattenNone(es[1..]); }
  }

  lemma NodeAddUnfold<K, V>(ops: Ops<K>, t: Table<K, V>, e: Entry<K, V>)
    requires Shaped(t)
    ensures NodeAdd(ops, t, e) == PutNode(ops, Grown(ops, t), e)
    ensures MustGrow(t.size, t.nodes) ==> t.size + 1 < |PRIMES|
    ensures Grown(ops, t) == if MustGrow(t.size, t.nodes) then Increase(ops, t) else t
  {
    PrimeBounds(t.size);
  }

  /** Emptying one more node of row i is one more step of the rehash. */
  lemma RehashPop<K, V>(ops: Ops<K>, t: Table<K, V>, es: seq<seq<Entry<K, V>>>, i: nat)
    requires Shaped(t) && i < |es| && es[i] != [] && forall r | 0 <= r < i :: es[r] == []
    ensures var u := NodeAdd(ops, t, es[i][0]);
      Rehash(ops, t, Flatten(es)) == Rehash(ops, u.(moved := u.moved + 1), Flatten(es[i := es[i][1..]]))
    ensures |Flatten(es[i := es[i][1..]])| < |Flatten(es)|
  {
    FlattenPop(es, i);
    var fs := es[i := es[i][1..]];
    assert Flatten(es)[1..] == Flatten(fs) && Flatten(es)[0] == es[i][0];
  }

  lemma RehashDone<K, V>(ops: Ops<K>, t: Table<K, V>, es: seq<seq<Entry<K, V>>>)
    requires Shaped(t) && forall r | 0 <= r < |es| :: es[r] == []
    ensures Rehash(ops, t, Flatten(es)) == t && Import(ops, t, Flatten(es)) == t
  {
    FlattenNone(es);
  }

  lemma ImportPop<K, V>(ops: Ops<K>, t: Table<K, V>, es: seq<seq<Entry<K, V>>>, i: nat)
    requires Shaped(t) && i < |es| && es[i] != [] && forall r | 0 <= r < i :: es[r] == []
    ensures Import(ops, t, Flatten(es)) == Import(ops, ImportOne(ops, t, es[i][0]), Flatten(es[i := es[i][1..]]))
    ensures |Flatten(es[i := es[i][1..]])| < |Flatten(es)|
  {
    FlattenPop(es, i);
    var fs := es[i := es[i][1..]];
    assert Flatten(es)[1..] == Flatten(fs) && Flatten(es)[0] == es[i][0];
  }

  lemma RowsLengths<K, V>(a: array<HashNode?<K, V>>, cs: seq<seq<HashNode<K, V>>>, es: seq<seq<Entry<K, V>>>,
                          repr: set<HashNode<K, V>>)
    requires Rows(a, cs, es, repr)
    ensures |cs| == |es| == a.Length
  {
  }

  lemma EmptyRow<K, V>(a: array<HashNode?<K, V>>, cs: seq<seq<HashNode<K, V>>>, es: seq<seq<Entry<K, V>>>,
                       repr: set<HashNode<K, V>>, r: nat)
    requires Rows(a, cs, es, repr) && r < a.Length
    ensures |es| == |cs| == a.Length && (a[r] == null <==> es[r] == [])
  {
    assert Chain(r, a[r], cs[r], es[r]);
  }

  /** A hash table with nodes of its own. */
  class EcoreHash<K(!new), V> {
    var buckets: array<HashNode?<K, V>>
    var size: nat
    var nodes: int
    const ops: Ops<K>
    /** The chain behind each bucket. */
    ghost var chains: seq<seq<HashNode<K, V>>>
    /** The table as a value. */
    ghost var table: Table<K, V>
    /** All nodes of the chains, and perhaps some that have been removed. */
    ghost var repr: set<HashNode<K, V>>

    ghost predicate Valid()
      reads this, buckets, repr
    {
      && Shaped(table) && table.size == size && table.nodes == nodes
      && Rows(buckets, chains, table.buckets, repr)
    }

    /** ecore_hash_init. */
    constructor (ops: Ops<K>)
      ensures Valid() && table == Empty() && this.ops == ops && repr == {} && fresh(buckets)
    {
      this.ops := ops;
      size, nodes := 0, 0;
      buckets := new HashNode?<K, V>[Prime(0)](i => null);
      chains := seq(Prime(0), i => []);
      table := Empty();
      repr := {};
    }

    /** _ecore_hash_node_get. */
    method NodeGet(key: K) returns (node: HashNode?<K, V>)
      requires Valid()
      modifies this`chains, this`table, buckets, repr
      ensures Valid()
      ensures var (t, hit) := HashModel.NodeGet(ops, old(table), key);
        && table == t
        && match hit {
             case None => node == null
             case Some(e) =>
               var h := BucketOf(ops, size, key);
               chains[h] != [] && node == chains[h][0] && Entry(node.key, node.value) == e
           }
      ensures node != null ==> node in repr
    {
      var h := BucketOf(ops, size, key);
      ghost var i;
      node, i := GetFromRow(ops, buckets, h, key, chains, table.buckets, repr);
      if node != null {
        chains := chains[h := ToFront(chains[h], i)];
        table := SetBucket(table, h, ToFront(table.buckets[h], i));
      }
    }

    /** ecore_hash_get. */
    method Get(key: K) returns (value: Option<V>)
      requires Valid()
      modifies this`chains, this`table, buckets, repr
      ensures Valid() && table == HashModel.NodeGet(ops, old(table), key).0
      ensures value == HashProofs.Lookup(ops, old(table), key)
    {
      var node := NodeGet(key);
      if node == null { return None; }
      value := Some(node.value);
    }

    /** _ecore_hash_node_add. */
    method NodeAdd(node: HashNode<K, V>)
      requires Valid() && node !in repr
      modifies this, buckets, repr, node
      ensures Valid() && table == HashModel.NodeAdd(ops, old(table), Entry(old(node.key), old(node.value)))
      ensures repr <= old(repr) + {node} && (buckets == old(buckets) || fresh(buckets))
      decreases |PRIMES| - size, 1
    {
      hide HashModel.NodeAdd, HashModel.Increase, Grown, Rows, MustGrow, HashModel.Rehash;
      ghost var e := Entry(node.key, node.value);
      NodeAddUnfold(ops, table, e);
      if MustGrow(size, nodes) {
        Increase();
      }
      var h := BucketOf(ops, size, node.key);
      RowsLengths(buckets, chains, table.buckets, repr);
      PushRow(buckets, h, node, chains, table.buckets, repr);
      nodes := nodes + 1;
      chains := chains[h := [node] + chains[h]];
      table := PutNode(ops, table, e);
      repr := repr + {node};
    }

    /** _ecore_hash_increase. */
    method Increase()
      requires Valid() && size + 1 < |PRIMES|
      modifies this, buckets, repr
      ensures Valid() && table == HashModel.Increase(ops, old(table))
      ensures repr <= old(repr) && fresh(buckets)
      decreases |PRIMES| - size, 0
    {
      var was, wasSize := buckets, size;
      ghost var cs, es, rp := chains, table.buckets, repr;
      Clear(wasSize + 1);
      Rehash(was, wasSize, cs, es, rp);
    }

    /** A new bucket array, of another size and empty. */
    method Clear(newSize: nat)
      requires newSize < |PRIMES|
      modifies this
      ensures Valid() && table == Cleared(old(table), newSize) && repr == {} && fresh(buckets)
    {
      size := newSize;
      nodes := 0;
      buckets := new HashNode?<K, V>[Prime(size)](i => null);
      chains := seq(Prime(size), i => []);
      table := Cleared(table, size);
      repr := {};
    }

    /** _ecore_hash_decrease. */
    method Decrease()
      requires Valid() && size > 0
      modifies this, buckets, repr
      ensures Valid() && table == HashModel.Decrease(ops, old(table))
      ensures repr <= old(repr) && fresh(buckets)
    {
      var was, wasSize := buckets, size;
      ghost var cs, es, rp := chains, table.buckets, repr;
      Clear(wasSize - 1);
      Rehash(was, wasSize, cs, es, rp);
    }

    /** _ecore_hash_rehash: empties the old bucket array into this table. */
    method Rehash(was: array<HashNode?<K, V>>, wasSize: nat, ghost cs0: seq<seq<HashNode<K, V>>>,
                  ghost es0: seq<seq<Entry<K, V>>>, ghost rp0: set<HashNode<K, V>>)
      requires Valid() && wasSize < |PRIMES| && was.Length == Prime(wasSize) && was != buckets
      requires Rows(was, cs0, es0, rp0) && rp0 !! repr
      modifies this, buckets, repr, was, rp0
      ensures Valid() && table == HashModel.Rehash(ops, old(table), Flatten(es0))
      ensures repr <= old(repr) + rp0 && (buckets == old(buckets) || fresh(buckets))
      decreases |PRIMES| - size, 3
    {
      hide HashModel.NodeAdd, HashModel.Rehash, HashModel.Increase, Grown, PutNode, Cleared, Rows, Flatten, MustGrow;
      ghost var cs, es, rp := cs0, es0, rp0;
      var i := 0;
      while i < Prime(wasSize)
        invariant i <= was.Length && Pending(was, cs, es, rp, i) && rp <= rp0
        invariant Valid() && size >= old(size) && repr <= old(repr) + rp0 && rp !! repr
        invariant was != buckets && (buckets == old(buckets) || fresh(buckets))
        invariant HashModel.Rehash(ops, table, Flatten(es)) == HashModel.Rehash(ops, old(table), Flatten(es0))
      {
        while was[i] != null
          invariant Pending(was, cs, es, rp, i) && rp <= rp0
          invariant Valid() && size >= old(size) && repr <= old(repr) + rp0 && rp !! repr
          invariant was != buckets && (buckets == old(buckets) || fresh(buckets))
          invariant HashModel.Rehash(ops, table, Flatten(es)) == HashModel.Rehash(ops, old(table), Flatten(es0))
          decreases |Flatten(es)|
        {
          EmptyRow(was, cs, es, rp, i);
          RehashPop(ops, table, es, i);
          cs, es, rp := MoveOne(was, i, cs, es, rp);
        }
        EmptyRow(was, cs, es, rp, i);
        i := i + 1;
      }
      RowsLengths(was, cs, es, rp);
      RehashDone(ops, table, es);
    }

    /** Moves the first node of row i of the old bucket array; the rows below i are already empty. */
    method MoveOne(was: array<HashNode?<K, V>>, i: nat, ghost cs: seq<seq<HashNode<K, V>>>,
                   ghost es: seq<seq<Entry<K, V>>>, ghost rp: set<HashNode<K, V>>)
        returns (ghost cs': seq<seq<HashNode<K, V>>>, ghost es': seq<seq<Entry<K, V>>>, ghost rp': set<HashNode<K, V>>)
      requires Valid() && was != buckets && Pending(was, cs, es, rp, i) && rp !! repr && i < was.Length
               && was[i] != null
      modifies this, buckets, repr, was, rp
      ensures Valid() && repr <= old(repr) + rp && (buckets == old(buckets) || fresh(buckets))
      ensures |es| == was.Length && es[i] != []
      ensures es' == es[i := es[i][1..]] && Pending(was, cs', es', rp', i) && rp' <= rp && rp' !! repr
      ensures var u := HashModel.NodeAdd(ops, old(table), es[i][0]); table == u.(moved := u.moved + 1)
      decreases |PRIMES| - size, 2
    {
      hide HashModel.NodeAdd, Rows, MustGrow;
      EmptyRow(was, cs, es, rp, i);
      var node := PopRow(was, i, cs, es, rp);
      cs', es', rp' := cs[i := cs[i][1..]], es[i := es[i][1..]], rp - {node};
      NodeAdd(node);
      table := table.(moved := table.moved + 1);
    }

    /** ecore_hash_set. */
    method Set(key: K, value: V)
      requires Valid()
      modifies this, buckets, repr
      ensures Valid() && table == HashModel.Set(ops, old(table), key, value)
      ensures (buckets == old(buckets) || fresh(buckets)) && fresh(repr - old(repr))
    {
      var node := NodeGet(key);
      if node != null {
        ghost var h := BucketOf(ops, size, key);
        ghost var e := Entry(node.key, value);
        RewriteFront(node, node.key, value, buckets, h, chains, table.buckets, repr);
        table := Overwrite(table, h, e);
      } else {
        node := new HashNode(key, value);
        NodeAdd(node);
      }
    }

    /** ecore_hash_remove; None is the source's NULL. */
    method Remove(key: K) returns (ret: Option<V>)
      requires Valid()
      modifies this, buckets, repr
      ensures Valid() && table == HashModel.Remove(ops, old(table), key)
      ensures ret == HashProofs.Lookup(ops, old(table), key)
      ensures (buckets == old(buckets) || fresh(buckets)) && repr <= old(repr)
    {
      ret := None;
      var h := BucketOf(ops, size, key);
      var node;
      ghost var i;
      node, i := CutFromRow(ops, buckets, h, key, chains, table.buckets, repr);
      if node != null {
        ret := Some(node.value);
        nodes := nodes - 1;
        chains := chains[h := RemoveAt(chains[h], i)];
        table := SetBucket(table, h, RemoveAt(table.buckets[h], i)).(nodes := table.nodes - 1);
      }
      assert table == Unlinked(ops, old(table), key);
      if MustShrink(size, nodes) {
        Decrease();
      }
    }

    /** ecore_hash_hash_set: moves all nodes of another table into this one and leaves the other new and empty. */
    method HashSet(other: EcoreHash<K, V>)
      requires Valid() && other.Valid() && other != this && other.buckets != buckets && other.repr !! repr
      modifies this, buckets, repr, other, other.buckets, other.repr
      ensures Valid() && table == Import(ops, old(table), Flatten(old(other.table.buckets)))
      ensures repr <= old(repr) + old(other.repr) && (buckets == old(buckets) || fresh(buckets))
      ensures other.Valid() && other.table == Empty() && other.repr == {} && fresh(other.buckets)
      ensures other.buckets != buckets
    {
      hide ImportOne, Import, Rows, Flatten;
      var was := other.buckets;
      ghost var cs, es, rp := other.chains, other.table.buckets, other.repr;
      ghost var rp0 := rp;
      RowsLengths(was, cs, es, rp);
      var i := 0;
      while i < Prime(other.size)
        invariant other.size == old(other.size) && was == old(other.buckets) == other.buckets
        invariant i <= was.Length && Pending(was, cs, es, rp, i) && rp <= rp0
        invariant Valid() && repr <= old(repr) + rp0 && rp !! repr
        invariant was != buckets && (buckets == old(buckets) || fresh(buckets))
        invariant Import(ops, table, Flatten(es)) == Import(ops, old(table), Flatten(old(other.table.buckets)))
      {
        while was[i] != null
          invariant other.size == old(other.size) && was == old(other.buckets) == other.buckets
          invariant Pending(was, cs, es, rp, i) && rp <= rp0
          invariant Valid() && repr <= old(repr) + rp0 && rp !! repr
          invariant was != buckets && (buckets == old(buckets) || fresh(buckets))
          invariant Import(ops, table, Flatten(es)) == Import(ops, old(table), Flatten(old(other.table.buckets)))
          decreases |Flatten(es)|
        {
          EmptyRow(was, cs, es, rp, i);
          ImportPop(ops, table, es, i);
          var moved := PopRow(was, i, cs, es, rp);
          cs, es, rp := cs[i := cs[i][1..]], es[i := es[i][1..]], rp - {moved};
          TakeOver(moved);
        }
        EmptyRow(was, cs, es, rp, i);
        i := i + 1;
      }
      RowsLengths(was, cs, es, rp);
      RehashDone(ops, table, es);
      other.Reinit();
    }

    /** ecore_hash_init once more, over the old fields. */
    method Reinit()
      modifies this
      ensures Valid() && table == Empty() && repr == {} && fresh(buckets)
    {
      size, nodes := 0, 0;
      buckets := new HashNode?<K, V>[Prime(0)](i => null);
      chains := seq(Prime(0), i => []);
      table := Empty();
      repr := {};
    }

    /** The loop body of ecore_hash_hash_set: an existing node takes over key and value, otherwise the node moves. */
    method TakeOver(moved: HashNode<K, V>)
      requires Valid() && moved !in repr
      modifies this, buckets, repr, moved
      ensures Valid() && table == ImportOne(ops, old(table), Entry(old(moved.key), old(moved.value)))
      ensures repr <= old(repr) + {moved} && (buckets == old(buckets) || fresh(buckets))
    {
      var node := NodeGet(moved.key);
      if node != null {
        ghost var h := BucketOf(ops, size, moved.key);
        ghost var e := Entry(moved.key, moved.value);
        RewriteFront(node, moved.key, moved.value, buckets, h, chains, table.buckets, repr);
        table := Overwrite(table, h, e);
      } else {
        NodeAdd(moved);
      }
    }
  }

  /** What is left of an old table while it is emptied: rows below i are empty. */
  ghost predicate Pending<K, V>(a: array<HashNode?<K, V>>, cs: seq<seq<HashNode<K, V>>>, es: seq<seq<Entry<K, V>>>,
                                repr: set<HashNode<K, V>>, i: nat)
    reads a, repr
  {
    Rows(a, cs, es, repr) && forall r | 0 <= r < i && r < |es| :: es[r] == []
  }
}
