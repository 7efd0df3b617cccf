/** The merge sort of ecore_list.c on plain sequences.  Unlike evas_list_sort it keeps the element of the
    first run when two compare equal, and that makes it stable. */
module StableSort {
  import opened RunMerge

  /** The comparison times the sort direction, 1 or -1. */
  ghost function Directed<T>(compare: Compare<T>, order: int): Compare<T> {
    (a: T, b: T) => compare(a, b) * order
  }

  lemma DirectedPreorder<T>(compare: Compare<T>, order: int, u: set<T>)
    requires PreorderOn(compare, u) && (order == 1 || order == -1)
    ensures PreorderOn(Directed(compare, order), u)
  {
    var d := Directed(compare, order);
    forall a, b | a in u && b in u ensures d(a, b) < 0 <==> d(b, a) > 0 {
      assert compare(a, b) < 0 <==> compare(b, a) > 0;
      assert compare(b, a) < 0 <==> compare(a, b) > 0;
    }
    forall a, b, c | a in u && b in u && c in u && d(a, b) <= 0 && d(b, c) <= 0 ensures d(a, c) <= 0 {
      if order == -1 {
        assert compare(c, b) <= 0 && compare(b, a) <= 0;
        assert compare(c, a) <= 0;
      }
    }
  }

  /** Said of the comparison itself: smaller before larger, or larger before smaller. */
  ghost predicate InOrder<T>(compare: Compare<T>, max: bool, s: seq<T>) {
    forall i, j | 0 <= i < j < |s| :: if max then compare(s[i], s[j]) >= 0 else compare(s[i], s[j]) <= 0
  }

  lemma DirectedInOrder<T>(compare: Compare<T>, max: bool, s: seq<T>)
    ensures Sorted(Directed(compare, if max then -1 else 1), s) <==> InOrder(compare, max, s)
  {
    var d := Directed(compare, if max then -1 else 1);
    if InOrder(compare, max, s) {
      forall i, j | 0 <= i < j < |s| ensures d(s[i], s[j]) <= 0 {
        assert if max then compare(s[i], s[j]) >= 0 else compare(s[i], s[j]) <= 0;
      }
    }
  }

  /** _ecore_list_node_merge. */
  ghost function StableMerge<T>(cmp: Compare<T>, xs: seq<T>, ys: seq<T>): (r: seq<T>)
    ensures |r| == |xs| + |ys|
    decreases |xs| + |ys|
  {
    if xs == [] then ys
    else if ys == [] then xs
    else if cmp(xs[0], ys[0]) > 0 then [ys[0]] + StableMerge(cmp, xs, ys[1..])
    else [xs[0]] + StableMerge(cmp, xs[1..], ys)
  }

  /** _ecore_list_node_mergesort, with its own rule for two elements. */
  ghost function MergeSort<T>(cmp: Compare<T>, s: seq<T>): (r: seq<T>)
    ensures |r| == |s|
    decreases |s|
  {
    if |s| < 2 then s
    else if |s| == 2 then (if cmp(s[0], s[1]) > 0 then [s[1], s[0]] else s)
    else StableMerge(cmp, MergeSort(cmp, s[..|s| / 2]), MergeSort(cmp, s[|s| / 2..]))
  }

  /** The elements that compare equal to k, in order. */
  ghost function Matching<T>(cmp: Compare<T>, s: seq<T>, k: T): seq<T> {
    if s == [] then [] else MatchingOne(cmp, s[0], k) + Matching(cmp, s[1..], k)
  }

  ghost function MatchingOne<T>(cmp: Compare<T>, x: T, k: T): seq<T> {
    if cmp(x, k) == 0 then [x] else []
  }

  lemma MatchingCons<T>(cmp: Compare<T>, x: T, s: seq<T>, k: T)
    ensures Matching(cmp, [x] + s, k) == MatchingOne(cmp, x, k) + Matching(cmp, s, k)
  {
    assert ([x] + s)[1..] == s;
  }

  lemma {:induction false} MatchingConcat<T>(cmp: Compare<T>, a: seq<T>, b: seq<T>, k: T)
    ensures Matching(cmp, a + b, k) == Matching(cmp, a, k) + Matching(cmp, b, k)
    decreases |a|
  {
    if a == [] {
      assert a + b == b;
    } else {
      hide Matching, MatchingOne;
      var x, s := a[0], a[1..];
      assert a == [x] + s && a + b == [x] + (s + b);
      MatchingCons(cmp, x, s, k);
      MatchingCons(cmp, x, s + b, k);
      MatchingConcat(cmp, s, b, k);
    }
  }

  lemma {:induction false} NothingMatches<T>(cmp: Compare<T>, s: seq<T>, k: T)
    requires forall x | x in s :: cmp(x, k) != 0
    ensures Matching(cmp, s, k) == []
    decreases |s|
  {
    if s != [] { NothingMatches(cmp, s[1..], k); }
  }

  /** Merging keeps first on ties, so it is the other merge with its runs exchanged. */
  lemma {:induction false} StableMergeIsMerge<T>(cmp: Compare<T>, xs: seq<T>, ys: seq<T>, u: set<T>)
    requires PreorderOn(cmp, u) && Elements(xs) <= u && Elements(ys) <= u
    ensures StableMerge(cmp, xs, ys) == Merge(cmp, ys, xs)
    decreases |xs| + |ys|
  {
    if xs != [] && ys != [] {
      assert xs[0] in Elements(xs) && ys[0] in Elements(ys);
      assert cmp(ys[0], xs[0]) < 0 <==> cmp(xs[0], ys[0]) > 0;
      assert Elements(xs[1..]) <= Elements(xs) && Elements(ys[1..]) <= Elements(ys);
      if cmp(xs[0], ys[0]) > 0 {
        StableMergeIsMerge(cmp, xs, ys[1..], u);
      } else {
        StableMergeIsMerge(cmp, xs[1..], ys, u);
      }
    }
  }

  lemma StableMergeStep<T>(cmp: Compare<T>, xs: seq<T>, ys: seq<T>)
    requires xs != [] && ys != []
    ensures StableMerge(cmp, xs, ys) == if cmp(xs[0], ys[0]) > 0 then [ys[0]] + StableMerge(cmp, xs, ys[1..])
                                        else [xs[0]] + StableMerge(cmp, xs[1..], ys)
    ensures xs == [xs[0]] + xs[1..] && ys == [ys[0]] + ys[1..]
  {
  }

  /** Equal elements of the first run come before those of the second. */
  lemma {:induction false} MergeStable<T>(cmp: Compare<T>, xs: seq<T>, ys: seq<T>, u: set<T>, k: T)
    requires PreorderOn(cmp, u) && Elements(xs) <= u && Elements(ys) <= u && k in u && Sorted(cmp, xs)
    ensures Matching(cmp, StableMerge(cmp, xs, ys), k) == Matching(cmp, xs, k) + Matching(cmp, ys, k)
    decreases |xs| + |ys|
  {
    if xs != [] && ys != [] {
      hide Matching, StableMerge, PreorderOn;
      StableMergeStep(cmp, xs, ys);
      assert Elements(xs[1..]) <= Elements(xs) && Elements(ys[1..]) <= Elements(ys);
      if cmp(xs[0], ys[0]) > 0 {
        MergeStable(cmp, xs, ys[1..], u, k);
        MatchingCons(cmp, ys[0], ys[1..], k);
        MatchingCons(cmp, ys[0], StableMerge(cmp, xs, ys[1..]), k);
        if cmp(ys[0], k) == 0 { AboveMatchesNot(cmp, xs, ys[0], u, k); }
      } else {
        MergeStable(cmp, xs[1..], ys, u, k);
        MatchingCons(cmp, xs[0], xs[1..], k);
        MatchingCons(cmp, xs[0], StableMerge(cmp, xs[1..], ys), k);
      }
    }
  }

  lemma SameRank<T>(cmp: Compare<T>, x: T, y: T, k: T, u: set<T>)
    requires PreorderOn(cmp, u) && x in u && y in u && k in u
    ensures cmp(x, k) == 0 && cmp(y, k) == 0 ==> cmp(x, y) == 0
  {
    if cmp(x, k) == 0 && cmp(y, k) == 0 {
      assert cmp(k, y) <= 0 && cmp(k, x) <= 0;
      assert cmp(x, y) <= 0 && cmp(y, x) <= 0;
    }
  }

  /** A sorted run that starts above y has nothing that compares equal to y. */
  lemma AboveMatchesNot<T>(cmp: Compare<T>, xs: seq<T>, y: T, u: set<T>, k: T)
    requires PreorderOn(cmp, u) && Elements(xs) <= u && y in u && k in u && Sorted(cmp, xs)
    requires xs != [] && cmp(xs[0], y) > 0 && cmp(y, k) == 0
    ensures Matching(cmp, xs, k) == []
  {
    forall x | x in xs ensures cmp(x, k) != 0 {
      HeadIsLeast(cmp, xs, x, u);
      assert xs[0] in Elements(xs);
      SameRank(cmp, x, y, k, u);
    }
    NothingMatches(cmp, xs, k);
  }

  lemma MergeSortTwo<T>(cmp: Compare<T>, a: T, b: T, u: set<T>, k: T)
    requires PreorderOn(cmp, u) && a in u && b in u && k in u
    ensures Sorted(cmp, MergeSort(cmp, [a, b])) && multiset(MergeSort(cmp, [a, b])) == multiset([a, b])
    ensures Matching(cmp, MergeSort(cmp, [a, b]), k) == Matching(cmp, [a, b], k)
  {
    assert MergeSort(cmp, [a, b]) == if cmp(a, b) > 0 then [b, a] else [a, b];
    hide MergeSort, Matching;
    if cmp(a, b) > 0 {
      assert cmp(b, a) < 0;
      SameRank(cmp, a, b, k, u);
      SwapMatching(cmp, a, b, k);
      assert multiset([b, a]) == multiset([a, b]);
    }
  }

  lemma SwapMatching<T>(cmp: Compare<T>, a: T, b: T, k: T)
    requires !(cmp(a, k) == 0 && cmp(b, k) == 0)
    ensures Matching(cmp, [b, a], k) == Matching(cmp, [a, b], k)
  {
    assert [a, b][1..] == [b] && [b, a][1..] == [a];
    assert [a][1..] == [] && [b][1..] == [];
  }

  /** The merge sort sorts, keeps every element, and keeps the order of those that compare equal to k. */
  lemma {:induction false} MergeSortStable<T>(cmp: Compare<T>, s: seq<T>, u: set<T>, k: T)
    requires PreorderOn(cmp, u) && Elements(s) <= u && k in u
    ensures Sorted(cmp, MergeSort(cmp, s)) && Permutation(MergeSort(cmp, s), s)
    ensures Matching(cmp, MergeSort(cmp, s), k) == Matching(cmp, s, k)
    decreases |s|
  {
    hide MergeSort, Matching, Sorted, PreorderOn, StableMerge;
    if |s| < 2 {
      MergeSortShort(cmp, s, u);
    } else if |s| == 2 {
      assert s[0] in Elements(s) && s[1] in Elements(s) && s == [s[0], s[1]];
      MergeSortTwo(cmp, s[0], s[1], u, k);
    } else {
      var a, b := s[..|s| / 2], s[|s| / 2..];
      assert Elements(a) <= Elements(s) && Elements(b) <= Elements(s) && s == a + b;
      MergeSortStable(cmp, a, u, k);
      MergeSortStable(cmp, b, u, k);
      MergeSortSplit(cmp, s);
      HalvesMerge(cmp, a, b, MergeSort(cmp, a), MergeSort(cmp, b), u, k);
    }
  }

  lemma MergeSortShort<T>(cmp: Compare<T>, s: seq<T>, u: set<T>)
    requires |s| < 2
    ensures MergeSort(cmp, s) == s && Sorted(cmp, s)
  {
  }

  lemma MergeSortSplit<T>(cmp: Compare<T>, s: seq<T>)
    requires |s| > 2
    ensures MergeSort(cmp, s) == StableMerge(cmp, MergeSort(cmp, s[..|s| / 2]), MergeSort(cmp, s[|s| / 2..]))
  {
  }

  /** Merging sorted versions x and y of a and b. */
  lemma HalvesMerge<T>(cmp: Compare<T>, a: seq<T>, b: seq<T>, x: seq<T>, y: seq<T>, u: set<T>, k: T)
    requires PreorderOn(cmp, u) && Elements(a) <= u && Elements(b) <= u && k in u
    requires Sorted(cmp, x) && Sorted(cmp, y) && Permutation(x, a) && Permutation(y, b)
    requires Matching(cmp, x, k) == Matching(cmp, a, k) && Matching(cmp, y, k) == Matching(cmp, b, k)
    ensures var r := StableMerge(cmp, x, y);
      Sorted(cmp, r) && Permutation(r, a + b) && Matching(cmp, r, k) == Matching(cmp, a + b, k)
  {
    hide Matching, Sorted, PreorderOn, StableMerge, Merge;
    PermutationKeepsElements(x, a);
    PermutationKeepsElements(y, b);
    StableMergeIsMerge(cmp, x, y, u);
    MergeSorted(cmp, y, x, u);
    MergePermutes(cmp, y, x);
    MergeStable(cmp, x, y, u, k);
    MatchingConcat(cmp, a, b, k);
  }

  /** A sorted sequence is determined by its elements of every rank, in order: there is one stable sort. */
  lemma {:induction false} StableSortUnique<T>(cmp: Compare<T>, a: seq<T>, b: seq<T>, u: set<T>)
    requires PreorderOn(cmp, u) && Elements(a) <= u && Elements(b) <= u && Sorted(cmp, a) && Sorted(cmp, b)
    requires forall k | k in u :: Matching(cmp, a, k) == Matching(cmp, b, k)
    ensures a == b
    decreases |a|
  {
    hide Matching, Sorted, PreorderOn;
    if a == [] {
      if b != [] { StableHeads(cmp, b, a, u); }
    } else {
      StableHeads(cmp, a, b, u);
      assert Elements(a[1..]) <= Elements(a) && Elements(b[1..]) <= Elements(b);
      forall k | k in u ensures Matching(cmp, a[1..], k) == Matching(cmp, b[1..], k) {
        TailsMatch(cmp, a, b, k);
      }
      SortedTail(cmp, a);
      SortedTail(cmp, b);
      StableSortUnique(cmp, a[1..], b[1..], u);
      assert a == [a[0]] + a[1..] && b == [b[0]] + b[1..];
    }
  }

  lemma SortedTail<T>(cmp: Compare<T>, a: seq<T>)
    requires Sorted(cmp, a) && a != []
    ensures Sorted(cmp, a[1..])
  {
  }

  lemma TailsMatch<T>(cmp: Compare<T>, a: seq<T>, b: seq<T>, k: T)
    requires a != [] && b != [] && a[0] == b[0] && Matching(cmp, a, k) == Matching(cmp, b, k)
    ensures Matching(cmp, a[1..], k) == Matching(cmp, b[1..], k)
  {
    hide Matching;
    assert a == [a[0]] + a[1..] && b == [b[0]] + b[1..];
    MatchingCons(cmp, a[0], a[1..], k);
    MatchingCons(cmp, b[0], b[1..], k);
    var x, y := Matching(cmp, a[1..], k), Matching(cmp, b[1..], k);
    if cmp(a[0], k) == 0 {
      assert ([a[0]] + x)[1..] == x && ([b[0]] + y)[1..] == y;
    } else {
      assert [] + x == x && [] + y == y;
    }
  }

  lemma MatchesItself<T>(cmp: Compare<T>, a: seq<T>, u: set<T>)
    requires PreorderOn(cmp, u) && Elements(a) <= u && a != []
    ensures a[0] in u && Matching(cmp, a, a[0]) != [] && Matching(cmp, a, a[0])[0] == a[0]
  {
    assert a[0] in Elements(a);
    assert cmp(a[0], a[0]) == 0;
  }

  lemma {:induction false} MatchingFrom<T>(cmp: Compare<T>, s: seq<T>, k: T, x: T)
    requires x in Matching(cmp, s, k)
    ensures x in s && cmp(x, k) == 0
    decreases |s|
  {
    if x in Matching(cmp, s[1..], k) { MatchingFrom(cmp, s[1..], k, x); }
  }

  lemma StableHeads<T>(cmp: Compare<T>, a: seq<T>, b: seq<T>, u: set<T>)
    requires PreorderOn(cmp, u) && Elements(a) <= u && Elements(b) <= u && Sorted(cmp, a) && Sorted(cmp, b)
    requires forall k | k in u :: Matching(cmp, a, k) == Matching(cmp, b, k)
    requires a != []
    ensures b != [] && a[0] == b[0]
  {
    MatchesItself(cmp, a, u);
    var p := a[0];
    MatchingFrom(cmp, b, p, p);
    MatchesItself(cmp, b, u);
    var q := b[0];
    MatchingFrom(cmp, a, q, q);
    HeadIsLeast(cmp, a, q, u);
    HeadIsLeast(cmp, b, p, u);
    assert cmp(p, q) <= 0 && cmp(q, p) <= 0;
    assert cmp(q, p) == 0;
    assert Matching(cmp, b, p)[0] == q;
  }

  /** When only identical elements compare equal, every sort gives the same result. */
  lemma {:induction false} SortUnique<T>(cmp: Compare<T>, a: seq<T>, b: seq<T>, u: set<T>)
    requires PreorderOn(cmp, u) && Elements(a) <= u && Elements(b) <= u && Sorted(cmp, a) && Sorted(cmp, b)
    requires multiset(a) == multiset(b)
    requires forall x, y | x in u && y in u && cmp(x, y) == 0 :: x == y
    ensures a == b
    decreases |a|
  {
    hide Sorted, PreorderOn;
    PermutationKeepsElements(a, b);
    if a != [] {
      SameHead(cmp, a, b, u);
      TailsPermute(a, b);
      assert Elements(a[1..]) <= Elements(a) && Elements(b[1..]) <= Elements(b);
      SortedTail(cmp, a);
      SortedTail(cmp, b);
      SortUnique(cmp, a[1..], b[1..], u);
    }
  }

  lemma TailsPermute<T>(a: seq<T>, b: seq<T>)
    requires a != [] && b != [] && a[0] == b[0] && multiset(a) == multiset(b)
    ensures multiset(a[1..]) == multiset(b[1..])
  {
    assert a == [a[0]] + a[1..] && b == [b[0]] + b[1..];
    MultisetCons(a[0], a[1..]);
    MultisetCons(b[0], b[1..]);
    assert multiset(a[1..]) == multiset(a) - multiset{a[0]} && multiset(b[1..]) == multiset(b) - multiset{b[0]};
  }

  lemma SameHead<T>(cmp: Compare<T>, a: seq<T>, b: seq<T>, u: set<T>)
    requires PreorderOn(cmp, u) && Elements(a) <= u && Sorted(cmp, a) && Sorted(cmp, b)
    requires Elements(a) == Elements(b) && a != [] && b != []
    requires forall x, y | x in u && y in u && cmp(x, y) == 0 :: x == y
    ensures a[0] == b[0]
  {
    assert a[0] in Elements(b) && b[0] in Elements(a);
    HeadIsLeast(cmp, a, b[0], u);
    HeadIsLeast(cmp, b, a[0], u);
    assert cmp(a[0], b[0]) <= 0 && cmp(b[0], a[0]) <= 0;
  }
}
