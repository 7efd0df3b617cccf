/** The doubly linked list of evas_list.c and its in-place sort. */
module EvasList {
  import opened Basics
  import opened RunMerge

  /** struct _Evas_List_Accounting: shared by every node of one list. */
  class Accounting<T> {
    var last: Node?<T>
    var count: int
    constructor (last: Node?<T>, count: int)
      ensures this.last == last && this.count == count
    {
      this.last := last;
      this.count := count;
    }
  }

  /** struct _Evas_List.  The sort reads data and accounting but never writes them. */
  class Node<T> {
    const data: T
    const accounting: Accounting<T>
    var next: Node?<T>
    var prev: Node?<T>

    constructor (data: T, accounting: Accounting<T>)
      ensures this.data == data && this.accounting == accounting && next == null && prev == null
    {
      this.data := data;
      this.accounting := accounting;
      next := null;
      prev := null;
    }
  }

  /** The node at position i of a chain, null one past its end. */
  ghost function At<T>(s: seq<Node<T>>, i: int): Node?<T>
  {
    if 0 <= i < |s| then s[i] else null
  }

  /** next and prev make exactly the chain s: mutually inverse, null at both ends. */
  ghost predicate Linked<T>(s: seq<Node<T>>)
    reads s`next, s`prev
  {
    && (forall i, j | 0 <= i < j < |s| :: s[i] != s[j])
    && (forall i {:trigger s[i].next} | 0 <= i < |s| :: s[i].next == At(s, i + 1))
    && (forall i {:trigger s[i].prev} | 0 <= i < |s| :: s[i].prev == At(s, i - 1))
  }

  /** A list as its users hold it: the head's chain, whose nodes share one accounting
      record with the right tail and count. */
  ghost predicate ListOf<T>(list: Node<T>, s: seq<Node<T>>)
    reads list.accounting, s`next, s`prev
  {
    && Linked(s) && s != [] && s[0] == list
    && (forall n | n in s :: n.accounting == list.accounting)
    && list.accounting.last == s[|s| - 1]
    && list.accounting.count == |s|
  }

  /** The caller's comparison, applied to the data of two nodes. */
  ghost function ByData<T>(func: Compare<T>): Compare<Node<T>> {
    (a: Node<T>, b: Node<T>) => func(a.data, b.data)
  }

  method EvasListNext<T>(list: Node?<T>) returns (r: Node?<T>)
    ensures r == if list == null then null else list.next
  {
    r := if list != null then list.next else null;
  }

  method EvasListPrev<T>(list: Node?<T>) returns (r: Node?<T>)
    ensures r == if list == null then null else list.prev
  {
    r := if list != null then list.prev else null;
  }

  /** The links after the relinking block, read along the old chain. */
  ghost predicate Relinked<T>(s: seq<Node<T>>, i: nat, j: nat)
    requires i < j < |s|
    reads s`next, s`prev
  {
    && (forall k {:trigger s[k].next} | 0 <= k < |s| :: s[k].next ==
          if k == i - 1 then s[j] else if k == j then s[i] else if k == j - 1 then At(s, j + 1) else At(s, k + 1))
    && (forall k {:trigger s[k].prev} | 0 <= k < |s| :: s[k].prev ==
          if k == j then At(s, i - 1) else if k == i then s[j] else if k == j + 1 then s[j - 1] else At(s, k - 1))
  }

  lemma RelinkedIsMoved<T>(s: seq<Node<T>>, i: nat, j: nat)
    requires forall k, l | 0 <= k < l < |s| :: s[k] != s[l]
    requires i < j < |s| && Relinked(s, i, j)
    ensures Linked(MoveBefore(s, i, j))
  {
    var m := MoveBefore(s, i, j);
    forall k | 0 <= k < |m| ensures m[k].next == At(m, k + 1) && m[k].prev == At(m, k - 1) {
      MoveBeforeAt(s, i, j, k);
      if k + 1 < |s| { MoveBeforeAt(s, i, j, k + 1); }
      if k > 0 { MoveBeforeAt(s, i, j, k - 1); }
    }
    forall k, l | 0 <= k < l < |m| ensures m[k] != m[l] {
      MoveBeforeAt(s, i, j, k);
      MoveBeforeAt(s, i, j, l);
    }
  }

  /** The first assignments of the relinking block: head2's neighbours skip it, head1's predecessor leads to it. */
  method SkipHead2<T>(next: Node?<T>, prev1: Node?<T>, prev2: Node?<T>, head2: Node<T>, ghost s: seq<Node<T>>,
                      ghost i: nat, ghost j: nat, ghost u: set<Node<T>>)
    requires Linked(s) && Within(s, u) && i < j < |s| && s[j] == head2
    requires next == At(s, j + 1) && prev1 == At(s, i - 1) && prev2 == s[j - 1]
    modifies u`next, u`prev
    ensures forall k {:trigger s[k].next} | 0 <= k < |s| ::
              s[k].next == if k == i - 1 then head2 else if k == j - 1 then next else At(s, k + 1)
    ensures forall k {:trigger s[k].prev} | 0 <= k < |s| :: s[k].prev == if k == j + 1 then prev2 else At(s, k - 1)
  {
    if next != null {
      next.prev := prev2;
    }
    if prev1 != null {
      prev1.next := head2;
    }
    if prev2 != null {
      prev2.next := next;
    }
  }

  /** The assignments of the relinking block. */
  method Rewire<T>(head1: Node<T>, head2: Node<T>, ghost s: seq<Node<T>>, ghost i: nat, ghost j: nat,
                   ghost u: set<Node<T>>)
    returns (next: Node?<T>, prev2: Node?<T>)
    requires Linked(s) && Within(s, u) && i < j < |s| && s[i] == head1 && s[j] == head2
    modifies u`next, u`prev
    ensures Relinked(s, i, j) && next == At(s, j + 1) && prev2 == s[j - 1]
  {
    next := EvasListNext(head2);
    var prev1 := EvasListPrev(head1);
    prev2 := EvasListPrev(head2);
    SkipHead2(next, prev1, prev2, head2, s, i, j, u);
    head2.prev := prev1;
    head2.next := head1;
    head1.prev := head2;
  }

  /** The relinking block of the merge: take head2 out of the chain and put it in front of head1. */
  method Relink<T>(head1: Node<T>, head2: Node<T>, ghost s: seq<Node<T>>, ghost i: nat, ghost j: nat,
                   ghost u: set<Node<T>>)
    returns (next: Node?<T>, prev2: Node?<T>)
    requires Linked(s) && Within(s, u) && i < j < |s| && s[i] == head1 && s[j] == head2
    modifies u`next, u`prev
    ensures Linked(MoveBefore(s, i, j))
    ensures next == At(s, j + 1) && prev2 == s[j - 1]
  {
    next, prev2 := Rewire(head1, head2, s, i, j, u);
    RelinkedIsMoved(s, i, j);
  }

  lemma MoveBeforeSlices<T>(c: seq<T>, lo: nat, i: nat, j: nat, hi: nat)
    requires lo <= i < j < hi <= |c|
    ensures var m := MoveBefore(c, i, j);
      && |m| == |c| && m[..lo] == c[..lo] && m[hi..] == c[hi..]
      && m[lo..i + 1] == c[lo..i] + [c[j]] && m[i + 1..j + 1] == c[i..j] && m[j + 1..hi] == c[j + 1..hi]
  {
  }

  /** Where a merge round stands: positions lo..i of the chain c are merged, i..j are left of the
      first run, j..hi of the second; the chain outside lo..hi is that of s. */
  ghost predicate Merging<T>(cmp: Compare<Node<T>>, s: seq<Node<T>>, c: seq<Node<T>>, lo: nat, mid: nat, hi: nat,
                             i: nat, j: nat)
  {
    && lo <= mid <= hi <= |s| && lo <= i <= j <= hi && |c| == |s|
    && c[..lo] == s[..lo] && c[hi..] == s[hi..]
    && c[lo..i] + Merge(cmp, c[i..j], c[j..hi]) == Merge(cmp, s[lo..mid], s[mid..hi])
  }

  lemma TakeFirst<T>(cmp: Compare<Node<T>>, s: seq<Node<T>>, c: seq<Node<T>>, lo: nat, mid: nat, hi: nat, i: nat,
                     j: nat)
    requires Merging(cmp, s, c, lo, mid, hi, i, j) && i < j < hi && cmp(c[i], c[j]) < 0
    ensures Merging(cmp, s, c, lo, mid, hi, i + 1, j)
  {
    hide Merge;
    var xs, ys := c[i..j], c[j..hi];
    assert xs[1..] == c[i + 1..j] && xs[0] == c[i] && ys[0] == c[j];
    MergeTakesFirst(cmp, xs, ys);
    assert c[lo..i] + ([c[i]] + Merge(cmp, xs[1..], ys)) == c[lo..i + 1] + Merge(cmp, xs[1..], ys);
  }

  lemma TakeSecond<T>(cmp: Compare<Node<T>>, s: seq<Node<T>>, c: seq<Node<T>>, lo: nat, mid: nat, hi: nat, i: nat,
                      j: nat)
    requires Merging(cmp, s, c, lo, mid, hi, i, j) && i < j < hi && !(cmp(c[i], c[j]) < 0)
    ensures Merging(cmp, s, MoveBefore(c, i, j), lo, mid, hi, i + 1, j + 1)
  {
    hide Merge;
    var xs, ys := c[i..j], c[j..hi];
    assert ys[1..] == c[j + 1..hi] && xs[0] == c[i] && ys[0] == c[j];
    MergeTakesSecond(cmp, xs, ys);
    MoveBeforeSlices(c, lo, i, j, hi);
    assert c[lo..i] + ([c[j]] + Merge(cmp, xs, ys[1..])) == (c[lo..i] + [c[j]]) + Merge(cmp, xs, ys[1..]);
  }

  lemma MergingDone<T>(cmp: Compare<Node<T>>, s: seq<Node<T>>, c: seq<Node<T>>, lo: nat, mid: nat, hi: nat, i: nat,
                       j: nat)
    requires Merging(cmp, s, c, lo, mid, hi, i, j) && (i == j || j == hi)
    ensures c == s[..lo] + Merge(cmp, s[lo..mid], s[mid..hi]) + s[hi..]
  {
    assert Merge(cmp, c[i..j], c[j..hi]) == c[i..hi];
    hide Merge;
    assert c[lo..hi] == c[lo..i] + c[i..hi];
    assert c == c[..lo] + c[lo..hi] + c[hi..];
  }

  /** The invariant of the merge loop: a Merging state, with list and last at the ends of the chain c. */
  ghost predicate RoundState<T>(cmp: Compare<Node<T>>, s: seq<Node<T>>, c: seq<Node<T>>, lo: nat, mid: nat, hi: nat,
                                i: nat, j: nat, list: Node<T>, last: Node<T>, u: set<Node<T>>)
    reads c`next, c`prev
  {
    && Merging(cmp, s, c, lo, mid, hi, i, j)
    && Linked(c) && Within(c, u)
    && c != [] && list == c[0] && last == c[|c| - 1]
  }

  lemma RoundStart<T>(cmp: Compare<Node<T>>, s: seq<Node<T>>, lo: nat, mid: nat, hi: nat, u: set<Node<T>>)
    requires Linked(s) && Within(s, u) && s != [] && lo <= mid <= hi <= |s|
    ensures RoundState(cmp, s, s, lo, mid, hi, lo, mid, s[0], s[|s| - 1], u)
  {
    assert s[lo..lo] == [];
  }

  lemma RoundFacts<T>(cmp: Compare<Node<T>>, s: seq<Node<T>>, c: seq<Node<T>>, lo: nat, mid: nat, hi: nat,
                      i: nat, j: nat, list: Node<T>, last: Node<T>, u: set<Node<T>>)
    requires RoundState(cmp, s, c, lo, mid, hi, i, j, list, last, u)
    ensures Linked(c) && lo <= i <= j <= hi <= |c| == |s|
  {
  }

  lemma RoundTakeFirst<T>(cmp: Compare<Node<T>>, s: seq<Node<T>>, c: seq<Node<T>>, lo: nat, mid: nat, hi: nat,
                          i: nat, j: nat, list: Node<T>, last: Node<T>, u: set<Node<T>>)
    requires RoundState(cmp, s, c, lo, mid, hi, i, j, list, last, u) && i < j < hi && cmp(c[i], c[j]) < 0
    ensures RoundState(cmp, s, c, lo, mid, hi, i + 1, j, list, last, u)
    ensures c[i].next == At(c, i + 1)
  {
    TakeFirst(cmp, s, c, lo, mid, hi, i, j);
  }

  lemma RoundDone<T>(cmp: Compare<Node<T>>, s: seq<Node<T>>, c: seq<Node<T>>, lo: nat, mid: nat, hi: nat,
                     i: nat, j: nat, list: Node<T>, last: Node<T>, u: set<Node<T>>)
    requires RoundState(cmp, s, c, lo, mid, hi, i, j, list, last, u) && (i == j || j == hi)
    ensures Linked(c) && |c| == |s| && Within(c, u)
    ensures c == s[..lo] + Merge(cmp, s[lo..mid], s[mid..hi]) + s[hi..]
    ensures list == c[0] && last == c[|c| - 1]
  {
    MergingDone(cmp, s, c, lo, mid, hi, i, j);
  }

  /** Stepping k nodes along a chain. */
  method Advance<T>(head: Node?<T>, k: nat, ghost c: seq<Node<T>>, ghost i: nat) returns (r: Node?<T>)
    requires Linked(c) && i + k <= |c| && head == At(c, i)
    ensures r == At(c, i + k)
  {
    r := head;
    for n := 0 to k
      invariant r == At(c, i + n)
    {
      r := EvasListNext(r);
    }
  }

  /** The branch that moves the head of the second run in front of the head of the first. */
  method TakeHead2<T>(list0: Node<T>, last0: Node<T>, head1: Node<T>, head2: Node<T>, ghost cmp: Compare<Node<T>>,
                      ghost s: seq<Node<T>>, ghost c: seq<Node<T>>, ghost lo: nat, ghost mid: nat, ghost hi: nat,
                      ghost i: nat, ghost j: nat, ghost u: set<Node<T>>)
    returns (list: Node<T>, last: Node<T>, next: Node?<T>, ghost m: seq<Node<T>>)
    requires RoundState(cmp, s, c, lo, mid, hi, i, j, list0, last0, u)
    requires i < j < hi && c[i] == head1 && c[j] == head2 && !(cmp(head1, head2) < 0)
    modifies u`next, u`prev
    ensures RoundState(cmp, s, m, lo, mid, hi, i + 1, j + 1, list, last, u)
    ensures |m| == |c| && m[i + 1] == head1 && next == At(m, j + 1)
  {
    TakeSecond(cmp, s, c, lo, mid, hi, i, j);
    MoveBeforeEnds(c, i, j);
    m := MoveBefore(c, i, j);
    forall k | 0 <= k < |m| ensures m[k] in u { MoveBeforeAt(c, i, j, k); }
    var prev2;
    next, prev2 := Relink(head1, head2, c, i, j, u);
    list := if head1 == list0 then head2 else list0;
    last := if head2 == last0 then prev2 else last0;
  }

  /** The body of the loop over process_list: merge the runs of length n1 and n2 that start at first. */
  method MergeRound<T>(list0: Node<T>, last0: Node<T>, first: Node?<T>, n1: nat, n2: nat, func: Compare<T>,
                       ghost cmp: Compare<Node<T>>, ghost s: seq<Node<T>>, ghost lo: nat, ghost u: set<Node<T>>)
    returns (list: Node<T>, last: Node<T>, after: Node?<T>, ghost c: seq<Node<T>>)
    requires Linked(s) && s != [] && list0 == s[0] && last0 == s[|s| - 1]
    requires lo + n1 + n2 <= |s| && first == At(s, lo) && Within(s, u) && cmp == ByData(func)
    modifies u`next, u`prev
    ensures Linked(c) && |c| == |s| && Within(c, u)
    ensures c == s[..lo] + Merge(cmp, s[lo..lo + n1], s[lo + n1..lo + n1 + n2]) + s[lo + n1 + n2..]
    ensures list == c[0] && last == c[|c| - 1] && after == At(c, lo + n1 + n2)
  {
    hide Merge, RoundState, Linked;
    list, last, c := list0, last0, s;
    var head1, head2, size1, size2 := first, first, n1, n2;
    var sizeSum := size1 + size2;
    head2 := Advance(head2, size1, s, lo);

    ghost var mid, hi := lo + n1, lo + n1 + n2;
    ghost var i: nat, j: nat := lo, mid;
    RoundStart(cmp, s, lo, mid, hi, u);
    var passNumber := 0;
    while passNumber < sizeSum
      invariant passNumber + size1 + size2 == sizeSum
      invariant j == i + size1 && hi == j + size2
      invariant RoundState(cmp, s, c, lo, mid, hi, i, j, list, last, u)
      invariant head1 == At(c, i) && head2 == At(c, j)
    {
      RoundFacts(cmp, s, c, lo, mid, hi, i, j, list, last, u);
      if size1 == 0 || head1 == null {
        // the first run is used up: just step head2 past the second
        head2 := Advance(head2, sizeSum - passNumber, c, j);
        break;
      } else if size2 == 0 || head2 == null {
        break;
      } else if func(head1.data, head2.data) < 0 {
        RoundTakeFirst(cmp, s, c, lo, mid, hi, i, j, list, last, u);
        head1 := EvasListNext(head1);
        size1 := size1 - 1;
        i := i + 1;
      } else {
        list, last, head2, c := TakeHead2(list, last, head1, head2, cmp, s, c, lo, mid, hi, i, j, u);
        size2 := size2 - 1;
        i, j := i + 1, j + 1;
      }
      passNumber := passNumber + 1;
    }
    RoundFacts(cmp, s, c, lo, mid, hi, i, j, list, last, u);
    RoundDone(cmp, s, c, lo, mid, hi, i, j, list, last, u);
    after := head2;
  }

  /** The runs one merge round takes off the front of t: as in the source, each is cut short by the limit. */
  lemma MergeRunsStep<T>(cmp: Compare<T>, t: seq<T>, w: nat, n1: nat, n2: nat)
    requires w > 0 && n1 == Min(w, |t|) && n2 == Min(w, |t| - n1)
    ensures MergeRuns(cmp, t, w) == Merge(cmp, t[..n1], t[n1..n1 + n2]) + MergeRuns(cmp, t[n1 + n2..], w)
  {
    hide Merge, MergeRuns;
    MergeRunsParts(cmp, t, w);
    if |t| <= w {
      assert t[..n1] == t && t[n1..n1 + n2] == [] && t[n1 + n2..] == [];
      MergeRunsParts(cmp, [], w);
      MergeWithEmpty(cmp, t, []);
      assert t + [] == t;
    } else {
      assert n1 == w && n1 + n2 == Min(2 * w, |t|);
    }
  }

  /** Within a pass: positions up to lo are merged, the rest of the first size nodes still has its old order. */
  ghost predicate InPass<T>(cmp: Compare<T>, s: seq<T>, c: seq<T>, size: nat, w: nat, lo: nat)
    requires w > 0
  {
    && lo <= size <= |s| == |c| && c[size..] == s[size..]
    && c[..lo] + MergeRuns(cmp, c[lo..size], w) == MergeRuns(cmp, s[..size], w)
  }

  lemma PassStart<T>(cmp: Compare<T>, s: seq<T>, size: nat, w: nat)
    requires w > 0 && size <= |s|
    ensures InPass(cmp, s, s, size, w, 0)
  {
    assert s[..0] == [] && s[0..size] == s[..size];
  }

  lemma Splice<T>(c: seq<T>, d: seq<T>, m: seq<T>, lo: nat, hi: nat, size: nat)
    requires lo <= hi <= size <= |c| && |m| == hi - lo && d == c[..lo] + m + c[hi..]
    ensures |d| == |c| && d[..hi] == c[..lo] + m && d[hi..size] == c[hi..size] && d[size..] == c[size..]
  {
  }

  lemma SliceOfSlice<T>(c: seq<T>, lo: nat, hi: nat, i: nat, j: nat)
    requires lo <= hi <= |c| && i <= j <= hi - lo
    ensures c[lo..hi][i..j] == c[lo + i..lo + j]
  {
    assert |c[lo..hi][i..j]| == |c[lo + i..lo + j]|;
    forall k | 0 <= k < j - i ensures c[lo..hi][i..j][k] == c[lo + i..lo + j][k] {
      assert c[lo..hi][i + k] == c[lo + i + k];
    }
  }

  lemma PassStep<T>(cmp: Compare<T>, s: seq<T>, c: seq<T>, d: seq<T>, size: nat, w: nat, lo: nat, n1: nat, n2: nat)
    requires w > 0 && InPass(cmp, s, c, size, w, lo)
    requires n1 == Min(w, size - lo) && n2 == Min(w, size - lo - n1)
    requires d == c[..lo] + Merge(cmp, c[lo..lo + n1], c[lo + n1..lo + n1 + n2]) + c[lo + n1 + n2..]
    ensures InPass(cmp, s, d, size, w, lo + n1 + n2)
  {
    hide Merge, MergeRuns;
    var t, hi := c[lo..size], lo + n1 + n2;
    MergeRunsStep(cmp, t, w, n1, n2);
    var m := Merge(cmp, c[lo..lo + n1], c[lo + n1..hi]);
    SliceOfSlice(c, lo, size, 0, n1);
    SliceOfSlice(c, lo, size, n1, n1 + n2);
    SliceOfSlice(c, lo, size, n1 + n2, |t|);
    Splice(c, d, m, lo, hi, size);
    assert c[..lo] + (m + MergeRuns(cmp, c[hi..size], w)) == d[..hi] + MergeRuns(cmp, d[hi..size], w);
  }

  lemma PassDone<T>(cmp: Compare<T>, s: seq<T>, c: seq<T>, size: nat, w: nat)
    requires w > 0 && InPass(cmp, s, c, size, w, size)
    ensures c == MergeRuns(cmp, s[..size], w) + s[size..]
  {
    assert MergeRuns(cmp, c[size..size], w) == [];
    assert c == c[..size] + c[size..];
  }

  /** One pass over the first size nodes: listNumber + 1 merge rounds of two runs of listSize nodes. */
  method SortPass<T>(list0: Node<T>, last0: Node<T>, size: nat, listSize: nat, listNumber: nat, func: Compare<T>,
                     ghost cmp: Compare<Node<T>>, ghost s: seq<Node<T>>, ghost u: set<Node<T>>)
    returns (list: Node<T>, last: Node<T>, ghost c: seq<Node<T>>)
    requires Linked(s) && s != [] && list0 == s[0] && last0 == s[|s| - 1] && Within(s, u) && cmp == ByData(func)
    requires listSize > 0 && size <= |s|
    requires (listNumber + 1) * (2 * listSize) >= size
    modifies u`next, u`prev
    ensures Linked(c) && |c| == |s| && Within(c, u)
    ensures c == MergeRuns(cmp, s[..size], listSize) + s[size..]
    ensures list == c[0] && last == c[|c| - 1]
  {
    hide Merge, MergeRuns, Linked, InPass;
    list, last, c := list0, last0, s;
    var head1: Node?<T> := list;
    var limit := size;
    var splitSize := listSize;
    ghost var lo: nat := 0;
    PassStart(cmp, s, size, splitSize);
    for processList := 0 to listNumber + 1
      invariant lo + limit == size && 0 <= limit
      invariant limit == 0 || lo == processList * (2 * splitSize)
      invariant Linked(c) && Within(c, u) && |c| == |s|
      invariant InPass(cmp, s, c, size, splitSize, lo)
      invariant list == c[0] && last == c[|c| - 1] && head1 == At(c, lo)
    {
      var size1 := if limit < splitSize then limit else splitSize;
      limit := limit - size1;
      var size2 := if limit < splitSize then limit else splitSize;
      limit := limit - size2;
      ghost var before := c;
      list, last, head1, c := MergeRound(list, last, head1, size1, size2, func, cmp, c, lo, u);
      PassStep(cmp, s, before, c, size, splitSize, lo, size1, size2);
      lo := lo + size1 + size2;
      assert (processList + 1) * (2 * splitSize) == processList * (2 * splitSize) + 2 * splitSize;
    }
    PassDone(cmp, s, c, size, splitSize);
  }

  /** How many leading nodes evas_list_sort sorts: all of them when size is out of range. */
  ghost function SortedCount(size: int, count: nat): nat {
    if size <= 0 || size > count then count else size
  }

  /** The reference result: the first nodes in BottomUpSort order, the later ones where they were. */
  ghost function SortPrefix<T>(cmp: Compare<T>, s: seq<T>, n: nat): (r: seq<T>)
    requires n <= |s|
    ensures |r| == |s|
  {
    BottomUpSort(cmp, s[..n]) + s[n..]
  }

  /** For every comparison, even one that is no order, the nodes stay the same. */
  lemma SortPrefixPermutes<T>(cmp: Compare<T>, s: seq<T>, n: nat)
    requires n <= |s|
    ensures Permutation(SortPrefix(cmp, s, n), s)
  {
    hide MergePasses;
    MergePassesPermutes(cmp, s[..n], 1, 2 * (n - n / 2));
    assert s == s[..n] + s[n..];
  }

  ghost function Data<T>(s: seq<Node<T>>): (d: seq<T>)
    ensures |d| == |s| && forall i | 0 <= i < |s| :: d[i] == s[i].data
  {
    seq(|s|, i requires 0 <= i < |s| => s[i].data)
  }

  /** c has the first n nodes of s in non-descending order of their data, if the comparison is a total preorder
      on that, and in some order in any case; the later nodes are where they were. */
  ghost predicate SortsFirst<T>(func: Compare<T>, s: seq<Node<T>>, c: seq<Node<T>>, n: nat)
    requires n <= |s|
  {
    && |c| == |s| && c[n..] == s[n..] && Permutation(c[..n], s[..n])
    && (PreorderOn(func, Elements(Data(s[..n]))) ==> Sorted(func, Data(c[..n])))
  }

  /** What evas_list_sort is for. */
  lemma SortPrefixCorrect<T>(func: Compare<T>, s: seq<Node<T>>, n: nat)
    requires n <= |s|
    ensures SortsFirst(func, s, SortPrefix(ByData(func), s, n), n)
  {
    var cmp, t := ByData(func), s[..n];
    MergePassesPermutes(cmp, t, 1, 2 * (n - n / 2));
    var c := SortPrefix(cmp, s, n);
    assert c[..n] == BottomUpSort(cmp, t) && c[n..] == s[n..];
    if PreorderOn(func, Elements(Data(t))) {
      assert PreorderOn(cmp, Elements(t)) by {
        forall a | a in Elements(t) ensures a.data in Elements(Data(t)) {
          var i :| 0 <= i < |t| && t[i] == a;
          assert Data(t)[i] == a.data;
        }
      }
      BottomUpSortCorrect(cmp, t);
    }
  }

  /** Halving the number of rounds while doubling the run length keeps every pass covering. */
  lemma RoundsCover(listNumber: nat, listSize: nat, middle: nat, size: nat)
    requires (listNumber + 1) * listSize >= middle && middle == size - size / 2
    ensures (listNumber + 1) * (2 * listSize) >= size
    ensures (listNumber / 2 + 1) * (2 * listSize) >= middle
  {
    var half := listNumber / 2;
    Doubled(listNumber + 1, listSize);
    Doubled(half + 1, listSize);
    assert (2 * (half + 1)) * listSize >= (listNumber + 1) * listSize by {
      MulMonotone(listNumber + 1, 2 * (half + 1), listSize);
    }
  }

  lemma Doubled(a: nat, b: nat)
    ensures a * (2 * b) == 2 * (a * b) == (2 * a) * b
  {
  }

  lemma MulMonotone(a: nat, b: nat, c: nat)
    requires a <= b
    ensures a * c <= b * c
  {
  }

  /** Between passes: the passes still to come turn the first size nodes into their final order. */
  ghost predicate BetweenPasses<T>(cmp: Compare<T>, s: seq<T>, c: seq<T>, size: nat, w: nat, middle: nat)
    requires w > 0
  {
    && size <= |s| == |c| && c[size..] == s[size..] && middle == size - size / 2
    && MergePasses(cmp, c[..size], w, 2 * middle) == BottomUpSort(cmp, s[..size])
  }

  lemma PassesStart<T>(cmp: Compare<T>, s: seq<T>, size: nat, middle: nat)
    requires size <= |s| && middle == size - size / 2
    ensures BetweenPasses(cmp, s, s, size, 1, middle)
  {
  }

  lemma PassesStep<T>(cmp: Compare<T>, s: seq<T>, c: seq<T>, d: seq<T>, size: nat, w: nat, middle: nat)
    requires w > 0 && BetweenPasses(cmp, s, c, size, w, middle) && w < 2 * middle
    requires d == MergeRuns(cmp, c[..size], w) + c[size..]
    ensures BetweenPasses(cmp, s, d, size, 2 * w, middle)
  {
    assert d[..size] == MergeRuns(cmp, c[..size], w) && d[size..] == c[size..];
  }

  lemma PassesDone<T>(cmp: Compare<T>, s: seq<T>, c: seq<T>, size: nat, w: nat, middle: nat)
    requires w > 0 && BetweenPasses(cmp, s, c, size, w, middle) && w >= 2 * middle
    ensures c == SortPrefix(cmp, s, size)
  {
    assert c == c[..size] + c[size..];
  }

  /** evas_list_sort. */
  method EvasListSort<T>(list0: Node?<T>, size0: int, func: Option<Compare<T>>, ghost s: seq<Node<T>>,
                         ghost u: set<Node<T>>)
    returns (r: Node?<T>, ghost c: seq<Node<T>>)
    requires list0 != null ==> ListOf(list0, s) && |s| < 0x8000_0000
    requires u == set n | n in s
    modifies u`next, u`prev, (if list0 == null then {} else {list0.accounting})`last
    ensures list0 == null || func.None? ==>
              r == null && (forall n | n in u :: n.next == old(n.next) && n.prev == old(n.prev))
    ensures list0 != null && func.None? ==> list0.accounting.last == old(list0.accounting.last)
    ensures list0 != null && func.Some? ==>
              && r != null && ListOf(r, c) && Permutation(c, s)
              && c == SortPrefix(ByData(func.value), s, SortedCount(size0, |s|))
              && (0 < size0 <= |s| ==> SortsFirst(func.value, s, c, size0))
              && (size0 <= 0 || size0 > |s| ==> SortsFirst(func.value, s, c, |s|))
  {
    hide MergePasses, MergeRuns, BetweenPasses, SortPrefix, Linked, SortsFirst;
    c := s;
    if list0 == null || func == None {
      return null, s;
    }
    var size := size0;
    if size <= 0 || size > list0.accounting.count {
      size := list0.accounting.count;
    }
    ghost var cmp := ByData(func.value);
    var list, last := list0, list0.accounting.last;
    var middle := size - size / 2;
    var listNumber, listSize := middle, 1;
    PassesStart(cmp, s, size, middle);
    while listSize < middle * 2
      invariant 0 < listSize < 0x1_0000_0000
      invariant (listNumber + 1) * listSize >= middle && listNumber >= 0
      invariant Linked(c) && Within(c, u) && |c| == |s| && list == c[0] && last == c[|c| - 1]
      invariant BetweenPasses(cmp, s, c, size, listSize, middle)
      decreases middle * 2 - listSize
    {
      RoundsCover(listNumber, listSize, middle, size);
      ghost var before := c;
      list, last, c := SortPass(list, last, size, listSize, listNumber, func.value, cmp, c, u);
      PassesStep(cmp, s, before, c, size, listSize, middle);
      listNumber := listNumber / 2;
      listSize := listSize * 2;
    }
    PassesDone(cmp, s, c, size, listSize, middle);
    SortPrefixPermutes(cmp, s, size);
    SortPrefixCorrect(func.value, s, size);
    list.accounting.last := last;
    r := list;
  }
}
