/** Merging and bottom-up run sorting on plain sequences.

    This is the reference that the in-place list sort of evas_list.c is proved
    against.  Elements are compared by a C-style three-way comparison; when two
    elements compare equal, the element of the SECOND run goes first, because
    evas_list_sort keeps the head of the first run only while the comparison is
    strictly negative. */
module RunMerge {

  type Compare<!T> = (T, T) -> int

  /** cmp is a total preorder on the elements of u: swapping the arguments flips the sign,
      and "not greater" is transitive. */
  ghost predicate PreorderOn<T>(cmp: Compare<T>, u: set<T>) {
    && (forall a, b | a in u && b in u :: cmp(a, b) < 0 <==> cmp(b, a) > 0)
    && (forall a, b, c | a in u && b in u && c in u :: cmp(a, b) <= 0 && cmp(b, c) <= 0 ==> cmp(a, c) <= 0)
  }

  ghost function Elements<T>(s: seq<T>): set<T> {
    set x | x in s
  }

  ghost predicate Sorted<T>(cmp: Compare<T>, s: seq<T>) {
    forall i, j | 0 <= i < j < |s| :: cmp(s[i], s[j]) <= 0
  }

  ghost predicate Permutation<T>(s: seq<T>, t: seq<T>) {
    multiset(s) == multiset(t)
  }

  /** The merge done by one round of evas_list_sort. */
  ghost function Merge<T>(cmp: Compare<T>, xs: seq<T>, ys: seq<T>): (r: seq<T>)
    ensures |r| == |xs| + |ys|
    decreases |xs| + |ys|
  {
    if xs == [] then ys
    else if ys == [] then xs
    else if cmp(xs[0], ys[0]) < 0 then [xs[0]] + Merge(cmp, xs[1..], ys)
    else [ys[0]] + Merge(cmp, xs, ys[1..])
  }

  lemma {:induction false} MergePermutes<T>(cmp: Compare<T>, xs: seq<T>, ys: seq<T>)
    ensures multiset(Merge(cmp, xs, ys)) == multiset(xs) + multiset(ys)
    decreases |xs| + |ys|
  {
    hide Merge;
    if xs == [] || ys == [] {
      MergeWithEmpty(cmp, xs, ys);
    } else if cmp(xs[0], ys[0]) < 0 {
      MergePermutes(cmp, xs[1..], ys);
      MergeTakesFirst(cmp, xs, ys);
      MultisetCons(xs[0], Merge(cmp, xs[1..], ys));
      MultisetCons(xs[0], xs[1..]);
      assert xs == [xs[0]] + xs[1..];
    } else {
      MergePermutes(cmp, xs, ys[1..]);
      MergeTakesSecond(cmp, xs, ys);
      MultisetCons(ys[0], Merge(cmp, xs, ys[1..]));
      MultisetCons(ys[0], ys[1..]);
      assert ys == [ys[0]] + ys[1..];
    }
  }

  lemma MultisetCons<T>(x: T, s: seq<T>)
    ensures multiset([x] + s) == multiset{x} + multiset(s)
  {
  }

  lemma PermutationKeepsElements<T>(s: seq<T>, t: seq<T>)
    requires multiset(s) == multiset(t)
    ensures |s| == |t| && Elements(s) == Elements(t)
  {
    assert |multiset(s)| == |s| && |multiset(t)| == |t|;
    forall x ensures x in s <==> x in t {
      assert x in s <==> x in multiset(s);
      assert x in t <==> x in multiset(t);
    }
  }

  lemma MergeElements<T>(cmp: Compare<T>, xs: seq<T>, ys: seq<T>, x: T)
    requires x in Merge(cmp, xs, ys)
    ensures x in xs || x in ys
  {
    MergePermutes(cmp, xs, ys);
    assert x in multiset(Merge(cmp, xs, ys));
  }

  lemma SortedCons<T>(cmp: Compare<T>, x: T, s: seq<T>)
    requires Sorted(cmp, s)
    requires forall y | y in s :: cmp(x, y) <= 0
    ensures Sorted(cmp, [x] + s)
  {
  }

  lemma MergeTakesFirst<T>(cmp: Compare<T>, xs: seq<T>, ys: seq<T>)
    requires xs != [] && ys != [] && cmp(xs[0], ys[0]) < 0
    ensures Merge(cmp, xs, ys) == [xs[0]] + Merge(cmp, xs[1..], ys)
  {
  }

  lemma MergeTakesSecond<T>(cmp: Compare<T>, xs: seq<T>, ys: seq<T>)
    requires xs != [] && ys != [] && !(cmp(xs[0], ys[0]) < 0)
    ensures Merge(cmp, xs, ys) == [ys[0]] + Merge(cmp, xs, ys[1..])
  {
  }

  lemma HeadIsLeast<T>(cmp: Compare<T>, s: seq<T>, e: T, u: set<T>)
    requires PreorderOn(cmp, u) && Elements(s) <= u && Sorted(cmp, s) && e in s
    ensures e in u && cmp(s[0], e) <= 0
  {
    assert e in Elements(s);
    var i :| 0 <= i < |s| && s[i] == e;
    if i == 0 {
      assert !(cmp(e, e) > 0);
    }
  }

  /** What comes before the head of a sorted run comes before all of it. */
  lemma BelowRun<T>(cmp: Compare<T>, x: T, s: seq<T>, u: set<T>)
    requires PreorderOn(cmp, u) && x in u && Elements(s) <= u && Sorted(cmp, s) && (s != [] ==> cmp(x, s[0]) <= 0)
    ensures forall e | e in s :: cmp(x, e) <= 0
  {
    forall e | e in s ensures cmp(x, e) <= 0 {
      HeadIsLeast(cmp, s, e, u);
      assert s[0] in Elements(s);
    }
  }

  /** The head of a sorted run comes before the rest of it. */
  lemma BelowTail<T>(cmp: Compare<T>, s: seq<T>, u: set<T>)
    requires Elements(s) <= u && Sorted(cmp, s) && s != []
    ensures s[0] in u && Elements(s[1..]) <= u && Sorted(cmp, s[1..]) && forall e | e in s[1..] :: cmp(s[0], e) <= 0
  {
    assert s[0] in Elements(s);
    assert forall e | e in s[1..] :: e in Elements(s);
  }

  lemma BelowMerge<T>(cmp: Compare<T>, x: T, xs: seq<T>, ys: seq<T>)
    requires (forall e | e in xs :: cmp(x, e) <= 0) && forall e | e in ys :: cmp(x, e) <= 0
    requires Sorted(cmp, Merge(cmp, xs, ys))
    ensures Sorted(cmp, [x] + Merge(cmp, xs, ys))
  {
    hide Merge, Sorted;
    forall e | e in Merge(cmp, xs, ys) ensures cmp(x, e) <= 0 { MergeElements(cmp, xs, ys, e); }
    SortedCons(cmp, x, Merge(cmp, xs, ys));
  }

  lemma HeadsCompare<T>(cmp: Compare<T>, x: T, y: T, u: set<T>)
    requires PreorderOn(cmp, u) && x in u && y in u
    ensures cmp(x, y) < 0 || cmp(y, x) <= 0
  {
  }

  lemma {:induction false} MergeSorted<T>(cmp: Compare<T>, xs: seq<T>, ys: seq<T>, u: set<T>)
    requires PreorderOn(cmp, u) && Elements(xs) <= u && Elements(ys) <= u
    requires Sorted(cmp, xs) && Sorted(cmp, ys)
    ensures Sorted(cmp, Merge(cmp, xs, ys))
    decreases |xs| + |ys|
  {
    hide Merge, Sorted, PreorderOn, Elements;
    if xs == [] || ys == [] {
      MergeWithEmpty(cmp, xs, ys);
    } else {
      BelowTail(cmp, xs, u);
      BelowTail(cmp, ys, u);
      HeadsCompare(cmp, xs[0], ys[0], u);
      if cmp(xs[0], ys[0]) < 0 {
        MergeTakesFirst(cmp, xs, ys);
        MergeSorted(cmp, xs[1..], ys, u);
        BelowRun(cmp, xs[0], ys, u);
        BelowMerge(cmp, xs[0], xs[1..], ys);
      } else {
        MergeTakesSecond(cmp, xs, ys);
        MergeSorted(cmp, xs, ys[1..], u);
        BelowRun(cmp, ys[0], xs, u);
        BelowMerge(cmp, ys[0], xs, ys[1..]);
      }
    }
  }

  lemma MergeWithEmpty<T>(cmp: Compare<T>, xs: seq<T>, ys: seq<T>)
    requires xs == [] || ys == []
    ensures Merge(cmp, xs, ys) == if xs == [] then ys else xs
  {
  }

  /** s with its element j moved in front of its element i. */
  ghost function MoveBefore<T>(s: seq<T>, i: nat, j: nat): seq<T>
    requires i < j < |s|
  {
    s[..i] + [s[j]] + s[i..j] + s[j + 1..]
  }

  lemma MoveBeforeAt<T>(s: seq<T>, i: nat, j: nat, k: nat)
    requires i < j < |s| && k < |s|
    ensures |MoveBefore(s, i, j)| == |s|
    ensures MoveBefore(s, i, j)[k] == if k < i || j < k then s[k] else if k == i then s[j] else s[k - 1]
  {
  }

  lemma MoveBeforeEnds<T>(s: seq<T>, i: nat, j: nat)
    requires i < j < |s|
    ensures var m := MoveBefore(s, i, j);
      && |m| == |s| && m[i] == s[j] && m[i + 1] == s[i]
      && m[0] == (if i == 0 then s[j] else s[0])
      && m[|s| - 1] == (if j == |s| - 1 then s[j - 1] else s[|s| - 1])
      && (j + 1 < |s| ==> m[j + 1] == s[j + 1])
  {
  }

  function Min(a: int, b: int): int { if a < b then a else b }

  /** One pass: merge neighbouring runs of length w pairwise. */
  ghost function MergeRuns<T>(cmp: Compare<T>, s: seq<T>, w: nat): (r: seq<T>)
    requires w > 0
    ensures |r| == |s|
    decreases |s|
  {
    if |s| <= w then s
    else
      var m := Min(2 * w, |s|);
      Merge(cmp, s[..w], s[w..m]) + MergeRuns(cmp, s[m..], w)
  }

  lemma MergeRunsParts<T>(cmp: Compare<T>, s: seq<T>, w: nat)
    requires w > 0
    ensures |s| <= w ==> MergeRuns(cmp, s, w) == s
    ensures |s| > w ==>
              var m := Min(2 * w, |s|);
              MergeRuns(cmp, s, w) == Merge(cmp, s[..w], s[w..m]) + MergeRuns(cmp, s[m..], w)
  {
  }

  /** Every run of length w (the last one may be shorter) is sorted. */
  ghost predicate RunsSorted<T>(cmp: Compare<T>, s: seq<T>, w: nat)
    requires w > 0
    decreases |s|
  {
    if |s| <= w then Sorted(cmp, s) else Sorted(cmp, s[..w]) && RunsSorted(cmp, s[w..], w)
  }

  lemma ThreeParts<T>(s: seq<T>, i: nat, j: nat)
    requires i <= j <= |s|
    ensures multiset(s) == multiset(s[..i]) + multiset(s[i..j]) + multiset(s[j..])
  {
    assert s == s[..i] + s[i..j] + s[j..];
  }

  lemma {:induction false} MergeRunsPermutes<T>(cmp: Compare<T>, s: seq<T>, w: nat)
    requires w > 0
    ensures multiset(MergeRuns(cmp, s, w)) == multiset(s)
    decreases |s|
  {
    hide Merge;
    if |s| > w {
      var m := Min(2 * w, |s|);
      var a, b, c := s[..w], s[w..m], s[m..];
      MergePermutes(cmp, a, b);
      MergeRunsPermutes(cmp, c, w);
      ThreeParts(s, w, m);
    }
  }

  lemma {:induction false} MergeRunsDoubles<T>(cmp: Compare<T>, s: seq<T>, w: nat, u: set<T>)
    requires w > 0 && PreorderOn(cmp, u) && Elements(s) <= u
    requires RunsSorted(cmp, s, w)
    ensures RunsSorted(cmp, MergeRuns(cmp, s, w), 2 * w)
    decreases |s|
  {
    if |s| > w {
      var m := Min(2 * w, |s|);
      var a, b, c := s[..w], s[w..m], s[m..];
      assert Elements(a) <= u && Elements(b) <= u && Elements(c) <= u by {
        assert forall e | e in a || e in b || e in c :: e in Elements(s);
      }
      var rest := s[w..];
      assert Sorted(cmp, b) && RunsSorted(cmp, c, w) by {
        if |rest| <= w {
          assert b == rest && c == [];
        } else {
          assert b == rest[..w] && c == rest[w..];
        }
      }
      MergeSorted(cmp, a, b, u);
      MergeRunsDoubles(cmp, c, w, u);
      var r := MergeRuns(cmp, s, w);
      if |s| > 2 * w {
        assert r[..2 * w] == Merge(cmp, a, b) && r[2 * w..] == MergeRuns(cmp, c, w);
      } else {
        assert c == [] && r == Merge(cmp, a, b);
      }
    }
  }

  /** Passes with run lengths w, 2w, 4w, ... while the run length is below stop. */
  ghost function MergePasses<T>(cmp: Compare<T>, s: seq<T>, w: nat, stop: nat): (r: seq<T>)
    requires w > 0
    ensures |r| == |s|
    decreases stop - w
  {
    if w >= stop then s else MergePasses(cmp, MergeRuns(cmp, s, w), 2 * w, stop)
  }

  /** Whatever the comparison, no element is lost. */
  lemma {:induction false} MergePassesPermutes<T>(cmp: Compare<T>, s: seq<T>, w: nat, stop: nat)
    requires w > 0
    ensures Permutation(MergePasses(cmp, s, w, stop), s)
    decreases stop - w
  {
    hide MergeRuns;
    if w < stop {
      MergeRunsPermutes(cmp, s, w);
      MergePassesPermutes(cmp, MergeRuns(cmp, s, w), 2 * w, stop);
    }
  }

  lemma {:induction false} MergePassesCorrect<T>(cmp: Compare<T>, s: seq<T>, w: nat, stop: nat, u: set<T>)
    requires w > 0 && |s| <= stop && PreorderOn(cmp, u) && Elements(s) <= u
    requires RunsSorted(cmp, s, w)
    ensures Sorted(cmp, MergePasses(cmp, s, w, stop))
    decreases stop - w
  {
    if w < stop {
      MergeRunsPermutes(cmp, s, w);
      PermutationKeepsElements(s, MergeRuns(cmp, s, w));
      MergeRunsDoubles(cmp, s, w, u);
      MergePassesCorrect(cmp, MergeRuns(cmp, s, w), 2 * w, stop, u);
    }
  }

  lemma {:induction false} SingletonRunsSorted<T>(cmp: Compare<T>, s: seq<T>)
    ensures RunsSorted(cmp, s, 1)
    decreases |s|
  {
    if |s| > 1 { SingletonRunsSorted(cmp, s[1..]); }
  }

  /** The order evas_list_sort leaves its elements in. */
  ghost function BottomUpSort<T>(cmp: Compare<T>, s: seq<T>): (r: seq<T>)
    ensures |r| == |s|
  {
    MergePasses(cmp, s, 1, 2 * (|s| - |s| / 2))
  }

  lemma BottomUpSortCorrect<T>(cmp: Compare<T>, s: seq<T>)
    requires PreorderOn(cmp, Elements(s))
    ensures Permutation(BottomUpSort(cmp, s), s)
    ensures Sorted(cmp, BottomUpSort(cmp, s))
  {
    SingletonRunsSorted(cmp, s);
    MergePassesPermutes(cmp, s, 1, 2 * (|s| - |s| / 2));
    MergePassesCorrect(cmp, s, 1, 2 * (|s| - |s| / 2), Elements(s));
  }
}
