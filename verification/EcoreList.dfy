/** The merge sorts of ecore_list.c on linked nodes. */
module EcoreList {
  import opened Basics
  import opened RunMerge
  import opened StableSort
  import Sheap

  /** Ecore_List_Node, and Ecore_DList_Node with its link back. */
  class ListNode<D> {
    var data: D
    var next: ListNode?<D>
    var previous: ListNode?<D>

    constructor (data: D)
      ensures this.data == data && next == null && previous == null
    {
      this.data, next, previous := data, null, null;
    }
  }

  ghost function At<D>(s: seq<ListNode<D>>, i: int): ListNode?<D> {
    if 0 <= i < |s| then s[i] else null
  }

  /** The nodes s hold the data d. */
  ghost predicate Holds<D>(s: seq<ListNode<D>>, d: seq<D>)
    reads s`data
  {
    |d| == |s| && forall i | 0 <= i < |s| :: s[i].data == d[i]
  }

  /** The forward links are those of the chain s. */
  ghost predicate Forward<D>(s: seq<ListNode<D>>)
    reads s`next
  {
    NoDup(s) && forall i {:trigger s[i].next} | 0 <= i < |s| :: s[i].next == At(s, i + 1)
  }

  /** The links back are those of the chain s. */
  ghost predicate Backward<D>(s: seq<ListNode<D>>)
    reads s`previous
  {
    forall i {:trigger s[i].previous} | 0 <= i < |s| :: s[i].previous == At(s, i - 1)
  }

  // ---------- merging ----------

  /** The forward links while two chains are merged: c[..p] is merged, c[p..q] is left of the first chain,
      c[q..] of the second.  The link of the last merged node is yet to be set. */
  ghost predicate ForwardParts<D>(c: seq<ListNode<D>>, p: nat, q: nat)
    requires p <= q <= |c|
    reads c`next
  {
    && NoDup(c)
    && forall k {:trigger c[k].next} | 0 <= k < |c| && k != p - 1 ::
         c[k].next == if k < p then c[k + 1] else if k == q - 1 then null else At(c, k + 1)
  }

  ghost predicate BackwardParts<D>(c: seq<ListNode<D>>, p: nat, q: nat)
    requires p <= q <= |c|
    reads c`previous
  {
    forall k {:trigger c[k].previous} | 0 <= k < |c| && k != p && k != q :: c[k].previous == At(c, k - 1)
  }

  /** The data along c: d[..p] is merged, and what is left will be merged behind it. */
  ghost predicate DataParts<D>(cmp: Compare<D>, d: seq<D>, p: nat, q: nat, goal: seq<D>) {
    p <= q <= |d| && d[..p] + StableMerge(cmp, d[p..q], d[q..]) == goal
  }

  lemma TakeFirst<D>(cmp: Compare<D>, d: seq<D>, p: nat, q: nat, goal: seq<D>)
    requires DataParts(cmp, d, p, q, goal) && p < q < |d| && cmp(d[p], d[q]) <= 0
    ensures DataParts(cmp, d, p + 1, q, goal)
  {
    var xs, ys := d[p..q], d[q..];
    assert xs[1..] == d[p + 1..q] && xs[0] == d[p] && ys[0] == d[q];
    assert StableMerge(cmp, xs, ys) == [xs[0]] + StableMerge(cmp, xs[1..], ys);
    hide StableMerge;
    assert d[..p] + ([d[p]] + StableMerge(cmp, xs[1..], ys)) == d[..p + 1] + StableMerge(cmp, xs[1..], ys);
  }

  lemma TakeSecond<D>(cmp: Compare<D>, d: seq<D>, p: nat, q: nat, goal: seq<D>)
    requires DataParts(cmp, d, p, q, goal) && p < q < |d| && cmp(d[p], d[q]) > 0
    ensures DataParts(cmp, MoveBefore(d, p, q), p + 1, q + 1, goal)
  {
    var xs, ys := d[p..q], d[q..];
    assert ys[1..] == d[q + 1..] && xs[0] == d[p] && ys[0] == d[q];
    assert StableMerge(cmp, xs, ys) == [ys[0]] + StableMerge(cmp, xs, ys[1..]);
    hide StableMerge;
    var m := MoveBefore(d, p, q);
    assert m[..p + 1] == d[..p] + [d[q]] && m[p + 1..q + 1] == xs && m[q + 1..] == ys[1..];
    assert d[..p] + ([d[q]] + StableMerge(cmp, xs, ys[1..])) == m[..p + 1] + StableMerge(cmp, xs, ys[1..]);
  }

  lemma DataMerged<D>(cmp: Compare<D>, d: seq<D>, p: nat, q: nat, goal: seq<D>)
    requires DataParts(cmp, d, p, q, goal) && (p == q || q == |d|)
    ensures d == goal
  {
    assert StableMerge(cmp, d[p..q], d[q..]) == d[p..];
    assert d[..p] + d[p..] == d;
  }

  lemma MoveBeforePermutes<N>(s: seq<N>, i: nat, j: nat)
    requires i < j < |s|
    ensures Permutation(MoveBefore(s, i, j), s)
    ensures NoDup(s) ==> NoDup(MoveBefore(s, i, j))
  {
    assert s == s[..i] + s[i..j] + [s[j]] + s[j + 1..];
    var m := MoveBefore(s, i, j);
    if NoDup(s) {
      forall k, l | 0 <= k < l < |m| ensures m[k] != m[l] {
        MoveBeforeAt(s, i, j, k);
        MoveBeforeAt(s, i, j, l);
      }
    }
  }

  /** The link of the last merged node has been set to the head of the second chain. */
  lemma ForwardTakeSecond<D>(c: seq<ListNode<D>>, p: nat, q: nat)
    requires p < q < |c| && NoDup(c)
    requires forall k {:trigger c[k].next} | 0 <= k < |c| ::
               c[k].next == if k == p - 1 then c[q] else if k < p then c[k + 1]
                            else if k == q - 1 then null else At(c, k + 1)
    ensures ForwardParts(MoveBefore(c, p, q), p + 1, q + 1)
  {
    var m := MoveBefore(c, p, q);
    MoveBeforePermutes(c, p, q);
    forall k | 0 <= k < |m| && k != p
      ensures m[k].next == if k < p + 1 then m[k + 1] else if k == q then null else At(m, k + 1)
    {
      MoveBeforeAt(c, p, q, k);
      if k + 1 < |m| { MoveBeforeAt(c, p, q, k + 1); }
    }
  }

  lemma BackwardTakeSecond<D>(c: seq<ListNode<D>>, p: nat, q: nat)
    requires p < q < |c|
    requires forall k {:trigger c[k].previous} | 0 <= k < |c| && k != p && k != q :: c[k].previous == At(c, k - 1)
    requires c[q].previous == At(c, p - 1)
    ensures BackwardParts(MoveBefore(c, p, q), p + 1, q + 1)
  {
    var m := MoveBefore(c, p, q);
    forall k | 0 <= k < |m| && k != p + 1 && k != q + 1 ensures m[k].previous == At(m, k - 1) {
      MoveBeforeAt(c, p, q, k);
      if k > 0 { MoveBeforeAt(c, p, q, k - 1); }
    }
  }

  lemma HoldsMoved<D>(c: seq<ListNode<D>>, d: seq<D>, p: nat, q: nat)
    requires Holds(c, d) && p < q < |c|
    ensures Holds(MoveBefore(c, p, q), MoveBefore(d, p, q))
  {
    forall k | 0 <= k < |c| ensures MoveBefore(c, p, q)[k].data == MoveBefore(d, p, q)[k] {
      MoveBeforeAt(c, p, q, k);
      MoveBeforeAt(d, p, q, k);
    }
  }

  lemma WithinMoved<N>(c: seq<N>, u: set<N>, p: nat, q: nat)
    requires Within(c, u) && p < q < |c|
    ensures Within(MoveBefore(c, p, q), u)
  {
    forall k | 0 <= k < |c| ensures MoveBefore(c, p, q)[k] in u { MoveBeforeAt(c, p, q, k); }
  }

  // ---------- the doubly linked merge ----------

  /** Where the merge of two doubly linked chains stands. */
  ghost predicate DMerging<D>(cmp: Compare<D>, c: seq<ListNode<D>>, d: seq<D>, p: nat, q: nat, goal: seq<D>,
                              c0: seq<ListNode<D>>, u: set<ListNode<D>>)
    reads c
  {
    && 0 < p <= q <= |c| && ForwardParts(c, p, q) && BackwardParts(c, p, q) && c[0].previous == null
    && Holds(c, d) && DataParts(cmp, d, p, q, goal) && Permutation(c, c0) && Within(c, u)
  }

  /** Appends the head of the second chain behind l. */
  method DTakeSecond<D>(l: ListNode<D>, second: ListNode<D>, ghost cmp: Compare<D>, ghost c: seq<ListNode<D>>,
                        ghost d: seq<D>, ghost p: nat, ghost q: nat, ghost goal: seq<D>,
                        ghost c0: seq<ListNode<D>>, ghost u: set<ListNode<D>>)
      returns (next: ListNode?<D>)
    requires DMerging(cmp, c, d, p, q, goal, c0, u) && p < q < |c| && cmp(d[p], d[q]) > 0
    requires l == c[p - 1] && second == c[q]
    modifies u`next, u`previous
    ensures DMerging(cmp, MoveBefore(c, p, q), MoveBefore(d, p, q), p + 1, q + 1, goal, c0, u)
    ensures next == At(c, q + 1)
  {
    second.previous := l;
    l.next := second;
    next := second.next;
    assert forall k | 0 <= k < |c| && k != p - 1 :: c[k] != l;
    assert forall k | 0 <= k < |c| && k != q :: c[k] != second;
    ForwardTakeSecond(c, p, q);
    BackwardTakeSecond(c, p, q);
    HoldsMoved(c, d, p, q);
    TakeSecond(cmp, d, p, q, goal);
    MoveBeforePermutes(c, p, q);
    WithinMoved(c, u, p, q);
  }

  /** Appends the head of the first chain behind l. */
  method DTakeFirst<D>(l: ListNode<D>, first: ListNode<D>, ghost cmp: Compare<D>, ghost c: seq<ListNode<D>>,
                       ghost d: seq<D>, ghost p: nat, ghost q: nat, ghost goal: seq<D>,
                       ghost c0: seq<ListNode<D>>, ghost u: set<ListNode<D>>)
      returns (next: ListNode?<D>)
    requires DMerging(cmp, c, d, p, q, goal, c0, u) && p < q < |c| && cmp(d[p], d[q]) <= 0
    requires l == c[p - 1] && first == c[p]
    modifies u`next, u`previous
    ensures DMerging(cmp, c, d, p + 1, q, goal, c0, u)
    ensures next == if p + 1 < q then c[p + 1] else null
  {
    first.previous := l;
    l.next := first;
    next := first.next;
    assert forall k | 0 <= k < |c| && k != p - 1 :: c[k] != l;
    assert forall k | 0 <= k < |c| && k != p :: c[k] != first;
    TakeFirst(cmp, d, p, q, goal);
  }

  /** Links what is left of either chain behind l. */
  method DAppendRest<D>(l: ListNode<D>, first: ListNode?<D>, second: ListNode?<D>, ghost cmp: Compare<D>,
                        ghost c: seq<ListNode<D>>, ghost d: seq<D>, ghost p: nat, ghost q: nat, ghost goal: seq<D>,
                        ghost c0: seq<ListNode<D>>, ghost u: set<ListNode<D>>)
    requires DMerging(cmp, c, d, p, q, goal, c0, u) && l == c[p - 1]
    requires first == (if p < q then c[p] else null) && second == At(c, q) && (first == null || second == null)
    modifies u`next, u`previous
    ensures Forward(c) && Backward(c) && Holds(c, goal) && Permutation(c, c0) && Within(c, u)
  {
    DataMerged(cmp, d, p, q, goal);
    assert forall k | 0 <= k < |c| && k != p - 1 :: c[k] != l;
    if first != null {
      assert forall k | 0 <= k < |c| && k != p :: c[k] != first;
      first.previous := l;
      l.next := first;
    } else if second != null {
      assert forall k | 0 <= k < |c| && k != q :: c[k] != second;
      second.previous := l;
      l.next := second;
    } else {
      l.next := null;
    }
  }

  /** Two chains of their own, about to be merged. */
  ghost predicate TwoChains<D>(c: seq<ListNode<D>>, mid: nat)
    reads c
  {
    0 < mid < |c| && NoDup(c) && Forward(c[..mid]) && Forward(c[mid..])
  }

  lemma PartsAtStart<D>(c: seq<ListNode<D>>, mid: nat)
    requires TwoChains(c, mid)
    ensures forall k {:trigger c[k].next} | 0 <= k < |c| :: c[k].next == if k == mid - 1 then null else At(c, k + 1)
    ensures Backward(c[..mid]) && Backward(c[mid..]) ==>
              BackwardParts(c, 0, mid) && c[0].previous == null && c[mid].previous == null
  {
    var a, b := c[..mid], c[mid..];
    forall k | 0 <= k < |c| ensures c[k].next == if k == mid - 1 then null else At(c, k + 1) {
      if k < mid { assert a[k].next == At(a, k + 1); } else { assert b[k - mid].next == At(b, k - mid + 1); }
    }
    if Backward(a) && Backward(b) {
      forall k | 0 <= k < |c| ensures c[k].previous == if k == mid then null else At(c, k - 1) {
        if k < mid { assert a[k].previous == At(a, k - 1); } else { assert b[k - mid].previous == At(b, k - mid - 1); }
      }
    }
  }

  lemma StartData<D>(cmp: Compare<D>, d: seq<D>, mid: nat)
    requires mid <= |d|
    ensures DataParts(cmp, d, 0, mid, StableMerge(cmp, d[..mid], d[mid..]))
  {
    assert d[0..mid] == d[..mid];
  }

  /** The merge begins with the head of the second chain. */
  lemma DStartsSecond<D>(cmp: Compare<D>, c0: seq<ListNode<D>>, d0: seq<D>, mid: nat, u: set<ListNode<D>>)
    requires TwoChains(c0, mid) && Backward(c0[..mid]) && Backward(c0[mid..]) && Holds(c0, d0) && Within(c0, u)
    requires cmp(d0[0], d0[mid]) > 0
    ensures DMerging(cmp, MoveBefore(c0, 0, mid), MoveBefore(d0, 0, mid), 1, mid + 1,
                     StableMerge(cmp, d0[..mid], d0[mid..]), c0, u)
  {
    hide StableMerge, Forward, Backward, MoveBefore;
    PartsAtStart(c0, mid);
    StartData(cmp, d0, mid);
    ForwardTakeSecond(c0, 0, mid);
    BackwardTakeSecond(c0, 0, mid);
    HoldsMoved(c0, d0, 0, mid);
    TakeSecond(cmp, d0, 0, mid, StableMerge(cmp, d0[..mid], d0[mid..]));
    MoveBeforePermutes(c0, 0, mid);
    MoveBeforeEnds(c0, 0, mid);
    WithinMoved(c0, u, 0, mid);
  }

  /** The merge begins with the head of the first chain. */
  lemma DStartsFirst<D>(cmp: Compare<D>, c0: seq<ListNode<D>>, d0: seq<D>, mid: nat, u: set<ListNode<D>>)
    requires TwoChains(c0, mid) && Backward(c0[..mid]) && Backward(c0[mid..]) && Holds(c0, d0) && Within(c0, u)
    requires cmp(d0[0], d0[mid]) <= 0
    ensures DMerging(cmp, c0, d0, 1, mid, StableMerge(cmp, d0[..mid], d0[mid..]), c0, u)
  {
    hide StableMerge, Forward, Backward;
    PartsAtStart(c0, mid);
    StartData(cmp, d0, mid);
    TakeFirst(cmp, d0, 0, mid, StableMerge(cmp, d0[..mid], d0[mid..]));
  }

  /** The first node, chosen outside the loop. */
  method DSelectFirst<D>(first0: ListNode<D>, second0: ListNode<D>, compare: Compare<D>, order: int,
                         ghost cmp: Compare<D>, ghost c0: seq<ListNode<D>>, ghost d0: seq<D>, ghost mid: nat,
                         ghost u: set<ListNode<D>>)
      returns (list: ListNode<D>, first: ListNode?<D>, second: ListNode?<D>, ghost c: seq<ListNode<D>>,
               ghost d: seq<D>, ghost q: nat)
    requires TwoChains(c0, mid) && Backward(c0[..mid]) && Backward(c0[mid..]) && Holds(c0, d0) && Within(c0, u)
    requires first0 == c0[0] && second0 == c0[mid] && cmp == Directed(compare, order)
    ensures DMerging(cmp, c, d, 1, q, StableMerge(cmp, d0[..mid], d0[mid..]), c0, u)
    ensures list == c[0] && first == (if 1 < q then c[1] else null) && second == At(c, q)
  {
    hide Backward, DMerging, StableMerge;
    PartsAtStart(c0, mid);
    first, second := first0, second0;
    if compare(first.data, second.data) * order > 0 {
      list := second;
      second := second.next;
      c, d, q := MoveBefore(c0, 0, mid), MoveBefore(d0, 0, mid), mid + 1;
      DStartsSecond(cmp, c0, d0, mid, u);
    } else {
      list := first;
      first := first.next;
      c, d, q := c0, d0, mid;
      DStartsFirst(cmp, c0, d0, mid, u);
    }
  }

  /** _ecore_dlist_node_merge. */
  method DNodeMerge<D>(first0: ListNode<D>, second0: ListNode<D>, compare: Compare<D>, order: int,
                       ghost c0: seq<ListNode<D>>, ghost d0: seq<D>, ghost mid: nat, ghost u: set<ListNode<D>>)
      returns (list: ListNode<D>, ghost c: seq<ListNode<D>>)
    requires TwoChains(c0, mid) && Backward(c0[..mid]) && Backward(c0[mid..]) && Holds(c0, d0) && Within(c0, u)
    requires first0 == c0[0] && second0 == c0[mid]
    modifies u`next, u`previous
    ensures Forward(c) && Backward(c) && c != [] && list == c[0] && Permutation(c, c0) && Within(c, u)
    ensures Holds(c, StableMerge(Directed(compare, order), d0[..mid], d0[mid..]))
  {
    hide StableMerge, DMerging, Forward, Backward;
    ghost var cmp := Directed(compare, order);
    ghost var goal := StableMerge(cmp, d0[..mid], d0[mid..]);
    var first, second;
    ghost var d: seq<D>, q: nat;
    list, first, second, c, d, q := DSelectFirst(first0, second0, compare, order, cmp, c0, d0, mid, u);
    var l := list;
    ghost var p: nat := 1;
    DMergingFacts(cmp, c, d, p, q, goal, c0, u);
    while first != null && second != null
      invariant DMerging(cmp, c, d, p, q, goal, c0, u) && 0 < p <= q <= |c| == |d|
      invariant list == c[0] && l == c[p - 1] && first == (if p < q then c[p] else null) && second == At(c, q)
      decreases |c| - p
    {
      DMergingFacts(cmp, c, d, p, q, goal, c0, u);
      if compare(first.data, second.data) * order > 0 {
        var next := DTakeSecond(l, second, cmp, c, d, p, q, goal, c0, u);
        MoveBeforeEnds(c, p, q);
        l, second := second, next;
        c, d, p, q := MoveBefore(c, p, q), MoveBefore(d, p, q), p + 1, q + 1;
      } else {
        var next := DTakeFirst(l, first, cmp, c, d, p, q, goal, c0, u);
        l, first := first, next;
        p := p + 1;
      }
      DMergingFacts(cmp, c, d, p, q, goal, c0, u);
    }
    DAppendRest(l, first, second, cmp, c, d, p, q, goal, c0, u);
  }

  lemma DMergingFacts<D>(cmp: Compare<D>, c: seq<ListNode<D>>, d: seq<D>, p: nat, q: nat, goal: seq<D>,
                         c0: seq<ListNode<D>>, u: set<ListNode<D>>)
    requires DMerging(cmp, c, d, p, q, goal, c0, u)
    ensures 0 < p <= q <= |c| == |d| && Holds(c, d)
  {
  }

  // ---------- the doubly linked merge sort ----------

  /** The nodes of x come from the first mid nodes of s, those of y from the others. */
  lemma Halves<N>(s: seq<N>, mid: nat, x: seq<N>, y: seq<N>)
    requires NoDup(s) && mid <= |s| && Permutation(x, s[..mid]) && Permutation(y, s[mid..]) && NoDup(x) && NoDup(y)
    ensures forall k | 0 <= k < |x| :: x[k] in s[..mid] && x[k] !in s[mid..]
    ensures forall k | 0 <= k < |y| :: y[k] in s[mid..]
    ensures NoDup(x + y) && Permutation(x + y, s) && Within(x + y, Elements(s)) && |x| == mid
  {
    PermutationKeepsElements(x, s[..mid]);
    PermutationKeepsElements(y, s[mid..]);
    assert s == s[..mid] + s[mid..];
    forall k | 0 <= k < |x| ensures x[k] in s[..mid] && x[k] !in s[mid..] {
      assert x[k] in Elements(x);
      var i :| 0 <= i < mid && s[i] == x[k];
    }
    forall k | 0 <= k < |y| ensures y[k] in s[mid..] {
      assert y[k] in Elements(y);
    }
    forall k | 0 <= k < |x + y| ensures (x + y)[k] in Elements(s) {
      if k < |x| { assert x[k] in s[..mid]; } else { assert y[k - |x|] in s[mid..]; }
    }
  }

  /** The chain s with the forward link in front of position mid cut. */
  lemma ForwardHalves<D>(s: seq<ListNode<D>>, mid: nat)
    requires NoDup(s) && 0 < mid < |s|
    requires forall k {:trigger s[k].next} | 0 <= k < |s| :: s[k].next == if k == mid - 1 then null else At(s, k + 1)
    ensures Forward(s[..mid]) && Forward(s[mid..])
  {
    var b := s[mid..];
    forall k | 0 <= k < |b| ensures b[k].next == At(b, k + 1) {
      assert b[k] == s[mid + k];
    }
  }

  /** The same for the links back. */
  lemma BackwardHalves<D>(s: seq<ListNode<D>>, mid: nat)
    requires 0 < mid < |s|
    requires forall k {:trigger s[k].previous} | 0 <= k < |s| ::
               s[k].previous == if k == mid then null else At(s, k - 1)
    ensures Backward(s[..mid]) && Backward(s[mid..])
  {
    var b := s[mid..];
    forall k | 0 <= k < |b| ensures b[k].previous == At(b, k - 1) {
      assert b[k] == s[mid + k];
    }
  }

  /** Cutting a chain in two. */
  method DSplit<D>(first: ListNode<D>, mid: nat, ghost s: seq<ListNode<D>>) returns (middle: ListNode<D>)
    requires Forward(s) && Backward(s) && 0 < mid < |s| && first == s[0]
    modifies s`next, s`previous
    ensures middle == s[mid] && Forward(s[..mid]) && Forward(s[mid..]) && Backward(s[..mid]) && Backward(s[mid..])
  {
    var premid := first;
    var i := 0;
    while i < mid - 1
      invariant 0 <= i <= mid - 1 && premid == s[i]
    {
      premid := premid.next;
      i := i + 1;
    }
    middle := premid.next;
    premid.next := null;
    middle.previous := null;
    assert forall k | 0 <= k < |s| && k != mid - 1 :: s[k] != premid;
    assert forall k | 0 <= k < |s| && k != mid :: s[k] != middle;
    ForwardHalves(s, mid);
    BackwardHalves(s, mid);
  }

  /** The two nodes of a short list trade their data if they are out of order. */
  method SortTwo<D>(first: ListNode<D>, compare: Compare<D>, order: int, ghost s: seq<ListNode<D>>, ghost d: seq<D>)
    requires Forward(s) && |s| == 2 && first == s[0] && Holds(s, d)
    modifies s`data
    ensures Holds(s, MergeSort(Directed(compare, order), d))
  {
    assert first.next == s[1] && first != s[1];
    assert s[0].data == d[0] && s[1].data == d[1];
    if compare(first.data, first.next.data) * order > 0 {
      var data := first.next.data;
      first.next.data := first.data;
      first.data := data;
    }
  }

  /** Merging the sorted halves x and y of s. */
  method DMergeHalves<D>(first: ListNode?<D>, second: ListNode?<D>, compare: Compare<D>, order: int,
                         ghost s: seq<ListNode<D>>, ghost mid: nat, ghost x: seq<ListNode<D>>,
                         ghost y: seq<ListNode<D>>, ghost dx: seq<D>, ghost dy: seq<D>)
      returns (list: ListNode?<D>, ghost r: seq<ListNode<D>>)
    requires NoDup(s) && 0 < mid < |s| && Permutation(x, s[..mid]) && Permutation(y, s[mid..])
    requires Forward(x) && Backward(x) && Holds(x, dx) && first == At(x, 0) && |x| == mid
    requires Forward(y) && Backward(y) && Holds(y, dy) && second == At(y, 0) && |y| == |s| - mid
    modifies s`next, s`previous
    ensures Forward(r) && Backward(r) && Permutation(r, s) && |r| == |s| && list == At(r, 0)
    ensures Holds(r, StableMerge(Directed(compare, order), dx, dy))
  {
    hide Forward, Backward, StableMerge;
    ForwardNoDup(x);
    ForwardNoDup(y);
    Halves(s, mid, x, y);
    ghost var c0, d0 := x + y, dx + dy;
    assert c0[..mid] == x && c0[mid..] == y && d0[..mid] == dx && d0[mid..] == dy;
    list, r := DNodeMerge(first, second, compare, order, c0, d0, mid, Elements(s));
    PermutationKeepsElements(r, s);
  }

  /** _ecore_dlist_node_mergesort. */
  method DNodeMergesort<D>(first0: ListNode?<D>, n: nat, compare: Compare<D>, order: int, ghost s: seq<ListNode<D>>,
                           ghost d: seq<D>)
      returns (list: ListNode?<D>, ghost r: seq<ListNode<D>>)
    requires Forward(s) && Backward(s) && |s| == n && first0 == At(s, 0) && Holds(s, d)
    modifies s
    ensures Forward(r) && Backward(r) && Permutation(r, s) && |r| == |s| && list == At(r, 0)
    ensures Holds(r, MergeSort(Directed(compare, order), d))
    decreases n
  {
    hide Forward, Backward, StableMerge, MergeSort;
    var mid := n / 2;
    if n < 2 {
      ShortIsSorted(Directed(compare, order), d);
      return first0, s;
    } else if n == 2 {
      SortTwo(first0, compare, order, s, d);
      return first0, s;
    }
    ForwardNoDup(s);
    var middle := DSplit(first0, mid, s);
    var first;
    ghost var x, y;
    assert Holds(s[..mid], d[..mid]) && Holds(s[mid..], d[mid..]);
    SplitDisjoint(s, mid);
    first, x := DNodeMergesort(first0, mid, compare, order, s[..mid], d[..mid]);
    var second;
    assert Holds(s[mid..], d[mid..]);
    ForwardNoDup(x);
    PermutedDisjoint(s, mid, x);
    second, y := DNodeMergesort(middle, n - mid, compare, order, s[mid..], d[mid..]);
    ghost var cmp := Directed(compare, order);
    MergeSortSplit(cmp, d);
    list, r := DMergeHalves(first, second, compare, order, s, mid, x, y,
                            MergeSort(cmp, d[..mid]), MergeSort(cmp, d[mid..]));
  }

  lemma ShortIsSorted<D>(cmp: Compare<D>, d: seq<D>)
    requires |d| < 2
    ensures MergeSort(cmp, d) == d
  {
  }

  lemma ForwardNoDup<D>(s: seq<ListNode<D>>)
    requires Forward(s)
    ensures NoDup(s)
  {
  }

  lemma SplitDisjoint<N>(s: seq<N>, mid: nat)
    requires NoDup(s) && mid <= |s|
    ensures forall x | x in s[..mid] :: x !in s[mid..]
  {
  }

  lemma PermutedDisjoint<N>(s: seq<N>, mid: nat, x: seq<N>)
    requires NoDup(s) && mid <= |s| && Permutation(x, s[..mid])
    ensures forall k | 0 <= k < |x| :: x[k] !in s[mid..]
  {
    PermutationKeepsElements(x, s[..mid]);
    forall k | 0 <= k < |x| ensures x[k] !in s[mid..] { assert x[k] in Elements(s[..mid]); }
  }

  // ---------- the singly linked merge sort ----------

  ghost predicate Merging<D>(cmp: Compare<D>, c: seq<ListNode<D>>, d: seq<D>, p: nat, q: nat, goal: seq<D>,
                             c0: seq<ListNode<D>>, u: set<ListNode<D>>)
    reads c
  {
    && 0 < p <= q <= |c| && ForwardParts(c, p, q)
    && Holds(c, d) && DataParts(cmp, d, p, q, goal) && Permutation(c, c0) && Within(c, u)
  }

  /** Appends the head of one of the chains behind l: of the second one if its data goes first. */
  method Append<D>(l: ListNode<D>, node: ListNode<D>, ghost cmp: Compare<D>, ghost c: seq<ListNode<D>>,
                   ghost d: seq<D>, ghost p: nat, ghost q: nat, ghost goal: seq<D>, ghost c0: seq<ListNode<D>>,
                   ghost u: set<ListNode<D>>)
      returns (next: ListNode?<D>)
    requires Merging(cmp, c, d, p, q, goal, c0, u) && p < q < |c|
    requires l == c[p - 1] && node == if cmp(d[p], d[q]) > 0 then c[q] else c[p]
    modifies u`next
    ensures cmp(d[p], d[q]) > 0 ==>
              Merging(cmp, MoveBefore(c, p, q), MoveBefore(d, p, q), p + 1, q + 1, goal, c0, u) && next == At(c, q + 1)
    ensures cmp(d[p], d[q]) <= 0 ==>
              Merging(cmp, c, d, p + 1, q, goal, c0, u) && next == if p + 1 < q then c[p + 1] else null
  {
    l.next := node;
    next := node.next;
    assert forall k | 0 <= k < |c| && k != p - 1 :: c[k] != l;
    if cmp(d[p], d[q]) > 0 {
      ForwardTakeSecond(c, p, q);
      HoldsMoved(c, d, p, q);
      TakeSecond(cmp, d, p, q, goal);
      MoveBeforePermutes(c, p, q);
      WithinMoved(c, u, p, q);
    } else {
      TakeFirst(cmp, d, p, q, goal);
    }
  }

  method AppendRest<D>(l: ListNode<D>, first: ListNode?<D>, second: ListNode?<D>, ghost cmp: Compare<D>,
                       ghost c: seq<ListNode<D>>, ghost d: seq<D>, ghost p: nat, ghost q: nat, ghost goal: seq<D>,
                       ghost c0: seq<ListNode<D>>, ghost u: set<ListNode<D>>)
    requires Merging(cmp, c, d, p, q, goal, c0, u) && l == c[p - 1]
    requires first == (if p < q then c[p] else null) && second == At(c, q) && (first == null || second == null)
    modifies u`next
    ensures Forward(c) && Holds(c, goal) && Permutation(c, c0) && Within(c, u)
  {
    DataMerged(cmp, d, p, q, goal);
    assert forall k | 0 <= k < |c| && k != p - 1 :: c[k] != l;
    if first != null {
      l.next := first;
    } else if second != null {
      l.next := second;
    } else {
      l.next := null;
    }
  }

  /** The merge begins with the head of the second chain. */
  lemma StartsSecond<D>(cmp: Compare<D>, c0: seq<ListNode<D>>, d0: seq<D>, mid: nat, u: set<ListNode<D>>)
    requires TwoChains(c0, mid) && Holds(c0, d0) && Within(c0, u)
    requires cmp(d0[0], d0[mid]) > 0
    ensures Merging(cmp, MoveBefore(c0, 0, mid), MoveBefore(d0, 0, mid), 1, mid + 1,
                     StableMerge(cmp, d0[..mid], d0[mid..]), c0, u)
  {
    hide StableMerge, Forward, Backward, MoveBefore;
    PartsAtStart(c0, mid);
    StartData(cmp, d0, mid);
    ForwardTakeSecond(c0, 0, mid);
    HoldsMoved(c0, d0, 0, mid);
    TakeSecond(cmp, d0, 0, mid, StableMerge(cmp, d0[..mid], d0[mid..]));
    MoveBeforePermutes(c0, 0, mid);
    MoveBeforeEnds(c0, 0, mid);
    WithinMoved(c0, u, 0, mid);
  }

  /** The merge begins with the head of the first chain. */
  lemma StartsFirst<D>(cmp: Compare<D>, c0: seq<ListNode<D>>, d0: seq<D>, mid: nat, u: set<ListNode<D>>)
    requires TwoChains(c0, mid) && Holds(c0, d0) && Within(c0, u)
    requires cmp(d0[0], d0[mid]) <= 0
    ensures Merging(cmp, c0, d0, 1, mid, StableMerge(cmp, d0[..mid], d0[mid..]), c0, u)
  {
    hide StableMerge, Forward, Backward;
    PartsAtStart(c0, mid);
    StartData(cmp, d0, mid);
    TakeFirst(cmp, d0, 0, mid, StableMerge(cmp, d0[..mid], d0[mid..]));
  }

  method SelectFirst<D>(first0: ListNode<D>, second0: ListNode<D>, compare: Compare<D>, order: int,
                        ghost cmp: Compare<D>, ghost c0: seq<ListNode<D>>, ghost d0: seq<D>, ghost mid: nat,
                        ghost u: set<ListNode<D>>)
      returns (list: ListNode<D>, first: ListNode?<D>, second: ListNode?<D>, ghost c: seq<ListNode<D>>,
               ghost d: seq<D>, ghost q: nat)
    requires TwoChains(c0, mid) && Holds(c0, d0) && Within(c0, u)
    requires first0 == c0[0] && second0 == c0[mid] && cmp == Directed(compare, order)
    ensures Merging(cmp, c, d, 1, q, StableMerge(cmp, d0[..mid], d0[mid..]), c0, u)
    ensures list == c[0] && first == (if 1 < q then c[1] else null) && second == At(c, q)
  {
    hide Merging, StableMerge;
    PartsAtStart(c0, mid);
    first, second := first0, second0;
    if compare(first.data, second.data) * order > 0 {
      list := second;
      second := second.next;
      c, d, q := MoveBefore(c0, 0, mid), MoveBefore(d0, 0, mid), mid + 1;
      StartsSecond(cmp, c0, d0, mid, u);
    } else {
      list := first;
      first := first.next;
      c, d, q := c0, d0, mid;
      StartsFirst(cmp, c0, d0, mid, u);
    }
  }

  /** _ecore_list_node_merge. */
  method NodeMerge<D>(first0: ListNode<D>, second0: ListNode<D>, compare: Compare<D>, order: int,
                      ghost c0: seq<ListNode<D>>, ghost d0: seq<D>, ghost mid: nat, ghost u: set<ListNode<D>>)
      returns (list: ListNode<D>, ghost c: seq<ListNode<D>>)
    requires TwoChains(c0, mid) && Holds(c0, d0) && Within(c0, u)
    requires first0 == c0[0] && second0 == c0[mid]
    modifies u`next
    ensures Forward(c) && c != [] && list == c[0] && Permutation(c, c0) && Within(c, u)
    ensures Holds(c, StableMerge(Directed(compare, order), d0[..mid], d0[mid..]))
  {
    hide StableMerge, Merging, Forward;
    ghost var cmp := Directed(compare, order);
    ghost var goal := StableMerge(cmp, d0[..mid], d0[mid..]);
    var first, second;
    ghost var d: seq<D>, q: nat;
    list, first, second, c, d, q := SelectFirst(first0, second0, compare, order, cmp, c0, d0, mid, u);
    var l := list;
    ghost var p: nat := 1;
    MergingFacts(cmp, c, d, p, q, goal, c0, u);
    while first != null && second != null
      invariant Merging(cmp, c, d, p, q, goal, c0, u) && 0 < p <= q <= |c| == |d|
      invariant list == c[0] && l == c[p - 1] && first == (if p < q then c[p] else null) && second == At(c, q)
      decreases |c| - p
    {
      MergingFacts(cmp, c, d, p, q, goal, c0, u);
      if compare(first.data, second.data) * order > 0 {
        var next := Append(l, second, cmp, c, d, p, q, goal, c0, u);
        MoveBeforeEnds(c, p, q);
        l, second := second, next;
        c, d, p, q := MoveBefore(c, p, q), MoveBefore(d, p, q), p + 1, q + 1;
      } else {
        var next := Append(l, first, cmp, c, d, p, q, goal, c0, u);
        l, first := first, next;
        p := p + 1;
      }
      MergingFacts(cmp, c, d, p, q, goal, c0, u);
    }
    AppendRest(l, first, second, cmp, c, d, p, q, goal, c0, u);
  }

  lemma MergingFacts<D>(cmp: Compare<D>, c: seq<ListNode<D>>, d: seq<D>, p: nat, q: nat, goal: seq<D>,
                        c0: seq<ListNode<D>>, u: set<ListNode<D>>)
    requires Merging(cmp, c, d, p, q, goal, c0, u)
    ensures 0 < p <= q <= |c| == |d| && Holds(c, d)
  {
  }

  method Split<D>(first: ListNode<D>, mid: nat, ghost s: seq<ListNode<D>>) returns (middle: ListNode<D>)
    requires Forward(s) && 0 < mid < |s| && first == s[0]
    modifies s`next
    ensures middle == s[mid] && Forward(s[..mid]) && Forward(s[mid..])
  {
    var premid := first;
    var i := 0;
    while i < mid - 1
      invariant 0 <= i <= mid - 1 && premid == s[i]
    {
      premid := premid.next;
      i := i + 1;
    }
    middle := premid.next;
    premid.next := null;
    assert forall k | 0 <= k < |s| && k != mid - 1 :: s[k] != premid;
    ForwardHalves(s, mid);
  }

  /** Merging the sorted halves x and y of s. */
  method MergeHalves<D>(first: ListNode?<D>, second: ListNode?<D>, compare: Compare<D>, order: int,
                        ghost s: seq<ListNode<D>>, ghost mid: nat, ghost x: seq<ListNode<D>>,
                        ghost y: seq<ListNode<D>>, ghost dx: seq<D>, ghost dy: seq<D>)
      returns (list: ListNode?<D>, ghost r: seq<ListNode<D>>)
    requires NoDup(s) && 0 < mid < |s| && Permutation(x, s[..mid]) && Permutation(y, s[mid..])
    requires Forward(x) && Holds(x, dx) && first == At(x, 0) && |x| == mid
    requires Forward(y) && Holds(y, dy) && second == At(y, 0) && |y| == |s| - mid
    modifies s`next
    ensures Forward(r) && Permutation(r, s) && |r| == |s| && list == At(r, 0)
    ensures Holds(r, StableMerge(Directed(compare, order), dx, dy))
  {
    hide Forward, StableMerge;
    ForwardNoDup(x);
    ForwardNoDup(y);
    Halves(s, mid, x, y);
    ghost var c0, d0 := x + y, dx + dy;
    assert c0[..mid] == x && c0[mid..] == y && d0[..mid] == dx && d0[mid..] == dy;
    list, r := NodeMerge(first, second, compare, order, c0, d0, mid, Elements(s));
    PermutationKeepsElements(r, s);
  }

  /** _ecore_list_node_mergesort. */
  method NodeMergesort<D>(first0: ListNode?<D>, n: nat, compare: Compare<D>, order: int, ghost s: seq<ListNode<D>>,
                          ghost d: seq<D>)
      returns (list: ListNode?<D>, ghost r: seq<ListNode<D>>)
    requires Forward(s) && |s| == n && first0 == At(s, 0) && Holds(s, d)
    modifies s`next, s`data
    ensures Forward(r) && Permutation(r, s) && |r| == |s| && list == At(r, 0)
    ensures Holds(r, MergeSort(Directed(compare, order), d))
    decreases n
  {
    hide Forward, StableMerge, MergeSort;
    var mid := n / 2;
    if n < 2 {
      ShortIsSorted(Directed(compare, order), d);
      return first0, s;
    } else if n == 2 {
      SortTwo(first0, compare, order, s, d);
      return first0, s;
    }
    ForwardNoDup(s);
    var middle := Split(first0, mid, s);
    var first;
    ghost var x, y;
    assert Holds(s[..mid], d[..mid]) && Holds(s[mid..], d[mid..]);
    SplitDisjoint(s, mid);
    first, x := NodeMergesort(first0, mid, compare, order, s[..mid], d[..mid]);
    var second;
    assert Holds(s[mid..], d[mid..]);
    ForwardNoDup(x);
    PermutedDisjoint(s, mid, x);
    second, y := NodeMergesort(middle, n - mid, compare, order, s[mid..], d[mid..]);
    ghost var cmp := Directed(compare, order);
    MergeSortSplit(cmp, d);
    list, r := MergeHalves(first, second, compare, order, s, mid, x, y,
                           MergeSort(cmp, d[..mid]), MergeSort(cmp, d[mid..]));
  }

  // ---------- lists ----------

  /** The sort direction as a factor. */
  ghost function Sign(max: bool): int { if max then -1 else 1 }

  /** The merge sort puts smaller data first, or larger data first when max is set. */
  lemma MergeSortDirection<D>(compare: Compare<D>, max: bool, d: seq<D>)
    ensures var out := MergeSort(Directed(compare, Sign(max)), d);
      PreorderOn(compare, Elements(d)) ==> InOrder(compare, max, out) && Permutation(out, d)
  {
    hide MergeSort, Sorted, PreorderOn, Directed, InOrder;
    var cmp := Directed(compare, Sign(max));
    if PreorderOn(compare, Elements(d)) {
      DirectedPreorder(compare, Sign(max), Elements(d));
      MergeSortCorrect(cmp, d);
      DirectedInOrder(compare, max, MergeSort(cmp, d));
    }
  }

  /** Gives a node the data at the top of the heap. */
  method PullTop<D(0)>(heap: Sheap.Sheap<D>, node: ListNode<D>, ghost cmp: Compare<D>, ghost d: seq<D>,
                       ghost out: seq<D>)
      returns (ghost out': seq<D>)
    requires heap.Fits() && heap.size > 0 && heap.Order() == cmp && Sheap.HeapOrdered(cmp, heap.Items())
    requires Sheap.Moving(cmp, d, out, heap.Items())
    modifies heap`size, heap.data, node`data
    ensures heap.Fits() && heap.size == old(heap.size) - 1 && Sheap.HeapOrdered(cmp, heap.Items())
    ensures out' == out + [node.data] && Sheap.Moving(cmp, d, out', heap.Items())
  {
    hide PreorderOn, Elements, Sheap.HeapOrdered, Directed, Sheap.Moving;
    ghost var rest := heap.Items();
    Sheap.MovingFacts(cmp, d, out, rest);
    forall k | 0 <= k < |rest| ensures cmp(rest[0], rest[k]) <= 0 { Sheap.TopIsExtreme(cmp, rest, k, Elements(rest)); }
    var top := heap.TakeTop(rest);
    node.data := top;
    out' := out + [top];
    Sheap.MovingStep(cmp, d, out, rest, heap.Items());
  }

  /** An empty heap of that size and order. */
  method NewHeap<D(0)>(compare: Compare<D>, max: bool, size: nat) returns (heap: Sheap.Sheap<D>)
    ensures fresh(heap) && fresh(heap.data) && heap.Valid() && heap.Items() == []
    ensures heap.data.Length == heap.space == size && heap.Order() == Directed(compare, Sign(max))
  {
    heap := new Sheap.Sheap<D>(compare, size);
    assert Elements(heap.Items()) == {};
    heap.OrderSet(max);
  }

  const MERGESORT_LIMIT := 40000

  lemma MergeSortCorrect<D>(cmp: Compare<D>, d: seq<D>)
    requires PreorderOn(cmp, Elements(d))
    ensures Sorted(cmp, MergeSort(cmp, d)) && Permutation(MergeSort(cmp, d), d)
  {
    if d == [] {
      ShortIsSorted(cmp, d);
    } else {
      assert d[0] in Elements(d);
      MergeSortStable(cmp, d, Elements(d), d[0]);
    }
  }

  /** Ecore_List, or Ecore_DList when the links back are in order too; the cursor is not modelled. */
  class EcoreList<D(0)> {
    var first: ListNode?<D>
    var last: ListNode?<D>
    var nodes: int
    ghost var spine: seq<ListNode<D>>

    ghost predicate Valid()
      reads this, spine
    {
      Forward(spine) && nodes == |spine| && first == At(spine, 0) && last == At(spine, |spine| - 1)
    }

    /** The tail reached by following the links from a node. */
    method Tail(from: ListNode<D>, ghost s: seq<ListNode<D>>) returns (node: ListNode<D>)
      requires Forward(s) && s != [] && from == s[0]
      ensures node == s[|s| - 1]
    {
      node := from;
      ghost var i := 0;
      while node.next != null
        invariant 0 <= i < |s| && node == s[i]
        decreases |s| - i
      {
        node := node.next;
        i := i + 1;
      }
    }

    /** ecore_dlist_mergesort: max is any order but ECORE_SORT_MIN. */
    method DListMergesort(compare: Compare<D>, max: bool, ghost d: seq<D>)
      requires Valid() && Backward(spine) && Holds(spine, d)
      modifies this, spine
      ensures Valid() && Backward(spine) && nodes == old(nodes) && Permutation(spine, old(spine))
      ensures Holds(spine, MergeSort(Directed(compare, Sign(max)), d))
      ensures PreorderOn(compare, Elements(d)) ==> InOrder(compare, max, MergeSort(Directed(compare, Sign(max)), d))
    {
      MergeSortDirection(compare, max, d);
      hide Forward, MergeSort, InOrder, PreorderOn;
      if nodes < 2 {
        ShortIsSorted(Directed(compare, Sign(max)), d);
        return;
      }
      var order := if max then -1 else 1;
      var node;
      ghost var r;
      node, r := DNodeMergesort(first, nodes, compare, order, spine, d);
      first := node;
      spine := r;
      last := Tail(node, r);
    }

    /** ecore_list_mergesort. */
    method ListMergesort(compare: Compare<D>, max: bool, ghost d: seq<D>)
      requires Valid() && Holds(spine, d)
      modifies this, spine
      ensures Valid() && nodes == old(nodes) && Permutation(spine, old(spine))
      ensures Holds(spine, MergeSort(Directed(compare, Sign(max)), d))
      ensures PreorderOn(compare, Elements(d)) ==> InOrder(compare, max, MergeSort(Directed(compare, Sign(max)), d))
    {
      MergeSortDirection(compare, max, d);
      hide Forward, MergeSort, InOrder, PreorderOn;
      if nodes < 2 {
        ShortIsSorted(Directed(compare, Sign(max)), d);
        return;
      }
      var order := if max then -1 else 1;
      var node;
      ghost var r;
      node, r := NodeMergesort(first, nodes, compare, order, spine, d);
      first := node;
      spine := r;
      last := Tail(node, r);
    }

    /** The first loop of ecore_list_heapsort: the data goes into the heap. */
    method FillHeap(heap: Sheap.Sheap<D>, ghost d: seq<D>)
      requires Valid() && Holds(spine, d) && heap.Valid() && heap.Items() == [] && heap.data.Length == heap.space == |d|
      requires PreorderOn(heap.Order(), Elements(d))
      modifies heap`sorted, heap`size, heap.data
      ensures heap.Valid() && multiset(heap.Items()) == multiset(d)
    {
      hide PreorderOn, Elements, Sheap.HeapOrdered, Directed, Sorted;
      ghost var i := 0;
      var node := first;
      while node != null
        invariant 0 <= i <= |d| && node == At(spine, i) && heap.size == i
        invariant heap.Valid() && multiset(heap.Items()) == multiset(d[..i])
        decreases |d| - i
      {
        heap.Reinsert(node.data, d, i);
        node := node.next;
        i := i + 1;
      }
      assert d[..i] == d;
    }

    /** The second loop: the nodes take the data back in order. */
    method DrainHeap(heap: Sheap.Sheap<D>, ghost d: seq<D>) returns (ghost out: seq<D>)
      requires Valid() && |spine| == |d| && heap.Valid() && multiset(heap.Items()) == multiset(d)
      requires PreorderOn(heap.Order(), Elements(d))
      modifies heap`sorted, heap`size, heap.data, spine`data
      ensures Holds(spine, out) && Sorted(heap.Order(), out) && Permutation(out, d)
    {
      hide PreorderOn, Elements, Sheap.HeapOrdered, Directed, Sorted, Sheap.Moving;
      ghost var cmp := heap.Order();
      ghost var i := 0;
      out := [];
      Sheap.MovingBegins(cmp, d, heap.Items());
      Sheap.ItemsCount(heap.Items(), d);
      var node := first;
      while node != null
        invariant 0 <= i <= |d| && node == At(spine, i) && |out| == i && i + heap.size == |d|
        invariant heap.Fits() && Sheap.HeapOrdered(cmp, heap.Items()) && heap.Order() == cmp
        invariant forall k | 0 <= k < i :: spine[k].data == out[k]
        invariant Sheap.Moving(cmp, d, out, heap.Items())
        decreases |d| - i
      {
        assert forall k | 0 <= k < i :: spine[k] != node;
        out := PullTop(heap, node, cmp, d, out);
        node := node.next;
        i := i + 1;
      }
      assert heap.Items() == [];
      Sheap.MovingEnd(cmp, d, out);
    }

    /** ecore_list_heapsort: out is the data in its new order. */
    method ListHeapsort(compare: Compare<D>, max: bool, ghost d: seq<D>) returns (ghost out: seq<D>)
      requires Valid() && Holds(spine, d) && PreorderOn(compare, Elements(d))
      modifies spine`data
      ensures Valid() && Holds(spine, out)
      ensures Sorted(Directed(compare, Sign(max)), out) && Permutation(out, d) && InOrder(compare, max, out)
    {
      hide Sorted, Forward, PreorderOn, Directed, Sheap.HeapOrdered, InOrder;
      DirectedPreorder(compare, Sign(max), Elements(d));
      var heap := NewHeap(compare, max, nodes);
      FillHeap(heap, d);
      out := DrainHeap(heap, d);
      DirectedInOrder(compare, max, out);
    }

    /** ecore_list_sort: beyond MERGESORT_LIMIT nodes it sorts by heap. */
    method ListSort(compare: Compare<D>, max: bool, ghost d: seq<D>) returns (ghost out: seq<D>)
      requires Valid() && Holds(spine, d) && PreorderOn(compare, Elements(d))
      modifies this, spine
      ensures Valid() && nodes == old(nodes) && Permutation(spine, old(spine)) && Holds(spine, out)
      ensures Sorted(Directed(compare, Sign(max)), out) && Permutation(out, d) && InOrder(compare, max, out)
      ensures |d| < MERGESORT_LIMIT ==> out == MergeSort(Directed(compare, Sign(max)), d)
    {
      hide Forward, Sorted, MergeSort, PreorderOn, InOrder;
      ghost var cmp := Directed(compare, Sign(max));
      DirectedPreorder(compare, Sign(max), Elements(d));
      MergeSortCorrect(cmp, d);
      out := MergeSort(cmp, d);
      DirectedInOrder(compare, max, out);
      if nodes < 2 {
        ShortIsSorted(cmp, d);
        return;
      }
      if nodes < MERGESORT_LIMIT {
        ListMergesort(compare, max, d);
        return;
      }
      out := ListHeapsort(compare, max, d);
    }
  }

  /** Where only identical data compare equal, no sorted arrangement differs from the merge sort's, so it cannot
      be seen which of the two sorts has run. */
  lemma SwitchUnobservable<D>(compare: Compare<D>, max: bool, d: seq<D>, out: seq<D>)
    requires PreorderOn(compare, Elements(d))
    requires Sorted(Directed(compare, Sign(max)), out) && Permutation(out, d)
    requires forall x, y | x in d && y in d && compare(x, y) == 0 :: x == y
    ensures out == MergeSort(Directed(compare, Sign(max)), d)
  {
    hide MergeSort, Sorted, PreorderOn;
    var cmp := Directed(compare, Sign(max));
    DirectedPreorder(compare, Sign(max), Elements(d));
    MergeSortCorrect(cmp, d);
    PermutationKeepsElements(out, d);
    PermutationKeepsElements(MergeSort(cmp, d), d);
    SortUnique(cmp, out, MergeSort(cmp, d), Elements(d));
  }
}
