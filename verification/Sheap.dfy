/** The binary heap of ecore_sheap.c. */
module Sheap {
  import opened Basics
  import opened RunMerge
  import opened StableSort

  /** The slot above slot k, both counted from 0. */
  function Parent(k: nat): (p: nat)
    requires k > 0
    ensures p < k && (k == 2 * p + 1 || k == 2 * p + 2)
  {
    (k + 1) / 2 - 1
  }

  ghost predicate HeapOrdered<D>(cmp: Compare<D>, s: seq<D>) {
    forall k | 1 <= k < |s| :: cmp(s[Parent(k)], s[k]) <= 0
  }

  /** A heap but for slot i, which may belong further up. */
  ghost predicate UpHeap<D>(cmp: Compare<D>, s: seq<D>, i: nat) {
    && (forall k | 1 <= k < |s| && k != i :: cmp(s[Parent(k)], s[k]) <= 0)
    && (forall k | 1 <= k < |s| && Parent(k) == i && i > 0 :: cmp(s[Parent(i)], s[k]) <= 0)
  }

  /** A heap but for slot i, which may belong further down. */
  ghost predicate DownHeap<D>(cmp: Compare<D>, s: seq<D>, i: nat) {
    && (forall k | 1 <= k < |s| && Parent(k) != i :: cmp(s[Parent(k)], s[k]) <= 0)
    && (forall k | 1 <= k < |s| && Parent(k) == i && i > 0 :: cmp(s[Parent(i)], s[k]) <= 0)
  }

  ghost function Swap<D>(s: seq<D>, i: nat, j: nat): seq<D>
    requires i < |s| && j < |s|
  {
    s[i := s[j]][j := s[i]]
  }

  lemma SwapPermutes<D>(s: seq<D>, i: nat, j: nat)
    requires i < |s| && j < |s|
    ensures multiset(Swap(s, i, j)) == multiset(s)
  {
  }

  lemma InElements<D>(s: seq<D>, u: set<D>)
    requires Elements(s) <= u
    ensures forall k | 0 <= k < |s| :: s[k] in u
  {
    forall k | 0 <= k < |s| ensures s[k] in u { assert s[k] in Elements(s); }
  }

  lemma SwapUp<D>(cmp: Compare<D>, s: seq<D>, i: nat, u: set<D>)
    requires PreorderOn(cmp, u) && Elements(s) <= u && 0 < i < |s|
    requires UpHeap(cmp, s, i) && cmp(s[Parent(i)], s[i]) > 0
    ensures UpHeap(cmp, Swap(s, Parent(i), i), Parent(i))
  {
    var p, t := Parent(i), Swap(s, Parent(i), i);
    InElements(s, u);
    assert cmp(s[i], s[p]) <= 0;
    forall k | 1 <= k < |t| && k != p ensures cmp(t[Parent(k)], t[k]) <= 0 {
      if k != i && Parent(k) == p { assert cmp(s[p], s[k]) <= 0; }
    }
    forall k | 1 <= k < |t| && Parent(k) == p && p > 0 ensures cmp(t[Parent(p)], t[k]) <= 0 {
      assert cmp(s[Parent(p)], s[p]) <= 0;
      if k != i { assert cmp(s[p], s[k]) <= 0; }
    }
  }

  lemma UpDone<D>(cmp: Compare<D>, s: seq<D>, i: nat)
    requires UpHeap(cmp, s, i) && i < |s| && (i > 0 ==> cmp(s[Parent(i)], s[i]) <= 0)
    ensures HeapOrdered(cmp, s)
  {
  }

  lemma SwapDown<D>(cmp: Compare<D>, s: seq<D>, i: nat, c: nat, u: set<D>)
    requires PreorderOn(cmp, u) && Elements(s) <= u && 0 < c < |s| && Parent(c) == i
    requires DownHeap(cmp, s, i) && cmp(s[c], s[i]) < 0
    requires forall k | 1 <= k < |s| && Parent(k) == i :: cmp(s[c], s[k]) <= 0
    ensures DownHeap(cmp, Swap(s, i, c), c)
  {
    var t := Swap(s, i, c);
    InElements(s, u);
    forall k | 1 <= k < |t| && Parent(k) != c ensures cmp(t[Parent(k)], t[k]) <= 0 {
    }
    forall k | 1 <= k < |t| && Parent(k) == c ensures cmp(t[Parent(c)], t[k]) <= 0 {
      assert cmp(s[Parent(k)], s[k]) <= 0;
    }
  }

  lemma DownDone<D>(cmp: Compare<D>, s: seq<D>, i: nat)
    requires DownHeap(cmp, s, i) && (forall k | 1 <= k < |s| && Parent(k) == i :: cmp(s[i], s[k]) <= 0)
    ensures HeapOrdered(cmp, s)
  {
  }

  /** The top of a heap comes before everything in it. */
  lemma {:induction false} TopIsExtreme<D>(cmp: Compare<D>, s: seq<D>, k: nat, u: set<D>)
    requires PreorderOn(cmp, u) && Elements(s) <= u && HeapOrdered(cmp, s) && k < |s|
    ensures cmp(s[0], s[k]) <= 0
    decreases k
  {
    InElements(s, u);
    if k > 0 {
      TopIsExtreme(cmp, s, Parent(k), u);
    }
  }

  lemma SortedIsHeap<D>(cmp: Compare<D>, s: seq<D>)
    requires Sorted(cmp, s)
    ensures HeapOrdered(cmp, s)
  {
  }

  /** Moving the last item to the top leaves a heap but for the top. */
  lemma LastOnTop<D>(cmp: Compare<D>, s: seq<D>)
    requires HeapOrdered(cmp, s) && s != []
    ensures var t := s[0 := s[|s| - 1]][..|s| - 1];
      DownHeap(cmp, t, 0) && multiset(t) == multiset(s) - multiset{s[0]}
  {
    LastOnTopItems(s);
  }

  lemma LastOnTopItems<D>(s: seq<D>)
    requires s != []
    ensures multiset(s[0 := s[|s| - 1]][..|s| - 1]) == multiset(s) - multiset{s[0]}
  {
    var n := |s| - 1;
    var t := s[0 := s[n]][..n];
    if n > 0 {
      var mid := s[1..n];
      assert s == [s[0]] + (mid + [s[n]]) && t == [s[n]] + mid;
      MultisetCons(s[0], mid + [s[n]]);
      MultisetCons(s[n], mid);
    } else {
      assert s == [s[0]] && t == [];
    }
  }

  /** One turn of the insertion loop. */
  lemma UpStep<D>(cmp: Compare<D>, s: seq<D>, t: seq<D>, i: nat, u: set<D>)
    requires PreorderOn(cmp, u) && Elements(s) <= u && 0 < i < |s|
    requires UpHeap(cmp, s, i) && cmp(s[Parent(i)], s[i]) > 0 && t == Swap(s, Parent(i), i)
    ensures UpHeap(cmp, t, Parent(i)) && Elements(t) <= u && multiset(t) == multiset(s)
  {
    SwapUp(cmp, s, i, u);
    SwapPermutes(s, Parent(i), i);
    PermutationKeepsElements(t, s);
  }

  /** One step down. */
  lemma DownStep<D>(cmp: Compare<D>, s: seq<D>, t: seq<D>, i: nat, c: nat, u: set<D>)
    requires PreorderOn(cmp, u) && Elements(s) <= u && 0 < c < |s| && Parent(c) == i
    requires DownHeap(cmp, s, i) && cmp(s[c], s[i]) < 0 && t == Swap(s, i, c)
    requires forall k | 1 <= k < |s| && Parent(k) == i :: cmp(s[c], s[k]) <= 0
    ensures DownHeap(cmp, t, c) && Elements(t) <= u && multiset(t) == multiset(s)
  {
    SwapDown(cmp, s, i, c, u);
    SwapPermutes(s, i, c);
    PermutationKeepsElements(t, s);
  }

  lemma PreorderShrinks<D>(cmp: Compare<D>, u: set<D>, v: set<D>)
    requires PreorderOn(cmp, u) && v <= u
    ensures PreorderOn(cmp, v)
  {
  }

  lemma SwappedItems<D>(s: seq<D>, t: seq<D>, i: nat, j: nat)
    requires i < |s| && j < |s| && |t| == |s| && t[i] == s[j] && t[j] == s[i]
    requires forall k | 0 <= k < |s| && k != i && k != j :: t[k] == s[k]
    ensures t == Swap(s, i, j)
  {
  }

  // ---------- sorting by extraction ----------

  /** out is what has been extracted from s0, in order; rest is still in the heap. */
  ghost predicate Moving<D>(cmp: Compare<D>, s0: seq<D>, out: seq<D>, rest: seq<D>) {
    && PreorderOn(cmp, Elements(s0)) && Sorted(cmp, out)
    && multiset(out) + multiset(rest) == multiset(s0)
    && forall x, y | x in out && y in rest :: cmp(x, y) <= 0
  }

  lemma Appended<D>(a: seq<D>, b: seq<D>, x: D)
    requires |b| == |a| + 1 && b[|a|] == x && forall k | 0 <= k < |a| :: b[k] == a[k]
    ensures b == a + [x]
  {
  }

  lemma MovingBegins<D>(cmp: Compare<D>, s0: seq<D>, rest: seq<D>)
    requires PreorderOn(cmp, Elements(s0)) && multiset(rest) == multiset(s0)
    ensures Moving(cmp, s0, [], rest)
  {
  }

  lemma MovingFacts<D>(cmp: Compare<D>, s0: seq<D>, out: seq<D>, rest: seq<D>)
    requires Moving(cmp, s0, out, rest)
    ensures PreorderOn(cmp, Elements(rest)) && Elements(rest) <= Elements(s0)
  {
    FewerElements(rest, s0);
    PreorderShrinks(cmp, Elements(s0), Elements(rest));
  }

  lemma MovedItems<D>(s0: seq<D>, out: seq<D>, rest: seq<D>, rest': seq<D>)
    requires multiset(out) + multiset(rest) == multiset(s0)
    requires rest != [] && multiset(rest') == multiset(rest) - multiset{rest[0]}
    ensures multiset(out + [rest[0]]) + multiset(rest') == multiset(s0)
  {
    assert rest[0] in multiset(rest);
    assert multiset(out + [rest[0]]) == multiset(out) + multiset{rest[0]};
  }

  lemma MovingStep<D>(cmp: Compare<D>, s0: seq<D>, out: seq<D>, rest: seq<D>, rest': seq<D>)
    requires Moving(cmp, s0, out, rest) && rest != [] && multiset(rest') == multiset(rest) - multiset{rest[0]}
    requires forall k | 0 <= k < |rest| :: cmp(rest[0], rest[k]) <= 0
    ensures Moving(cmp, s0, out + [rest[0]], rest')
  {
    var x := rest[0];
    forall y | y in rest' ensures y in rest {
      assert y in multiset(rest');
      assert y in multiset(rest);
    }
    MovedItems(s0, out, rest, rest');
    forall y, z | y in out + [x] && z in rest' ensures cmp(y, z) <= 0 {
      var k :| 0 <= k < |rest| && rest[k] == z;
    }
  }

  /** One turn of the sorting loop: the top of the heap goes behind the output. */
  lemma MovingTurn<D>(cmp: Compare<D>, s0: seq<D>, out: seq<D>, rest: seq<D>, out': seq<D>, rest': seq<D>)
    requires Moving(cmp, s0, out, rest) && rest != [] && HeapOrdered(cmp, rest)
    requires multiset(rest') == multiset(rest) - multiset{rest[0]}
    requires |out'| == |out| + 1 && out'[|out|] == rest[0] && forall k | 0 <= k < |out| :: out'[k] == out[k]
    ensures Moving(cmp, s0, out', rest')
  {
    hide Moving, HeapOrdered, PreorderOn;
    MovingFacts(cmp, s0, out, rest);
    forall k | 0 <= k < |rest| ensures cmp(rest[0], rest[k]) <= 0 { TopIsExtreme(cmp, rest, k, Elements(rest)); }
    Appended(out, out', rest[0]);
    MovingStep(cmp, s0, out, rest, rest');
  }

  lemma MovingEnd<D>(cmp: Compare<D>, s0: seq<D>, out: seq<D>)
    requires Moving(cmp, s0, out, [])
    ensures Sorted(cmp, out) && HeapOrdered(cmp, out) && multiset(out) == multiset(s0)
  {
    SortedIsHeap(cmp, out);
  }

  lemma NothingYet<D>(cmp: Compare<D>)
    ensures HeapOrdered<D>(cmp, []) && Sorted<D>(cmp, [])
  {
  }

  lemma InsertOrder<D>(cmp: Compare<D>, s: seq<D>, t: seq<D>, i: nat)
    requires PreorderOn(cmp, Elements(s)) && i < |s| && multiset(t) == multiset(s[..i])
    ensures PreorderOn(cmp, Elements(t) + {s[i]})
  {
    assert s == s[..i] + s[i..];
    FewerElements(t, s);
    PreorderShrinks(cmp, Elements(s), Elements(t) + {s[i]});
  }

  lemma ItemsCount<D>(a: seq<D>, b: seq<D>)
    requires multiset(a) == multiset(b)
    ensures |a| == |b|
  {
    assert |multiset(a)| == |a| && |multiset(b)| == |b|;
  }

  lemma FewerElements<D>(a: seq<D>, b: seq<D>)
    requires multiset(a) <= multiset(b)
    ensures Elements(a) <= Elements(b)
  {
    forall x | x in a ensures x in b { assert x in multiset(a); assert x in multiset(b); }
  }

  /** The child picked by heapify comes before slot i and both its children. */
  lemma Children<D>(cmp: Compare<D>, s: seq<D>, i: nat, e: nat, u: set<D>)
    requires PreorderOn(cmp, u) && Elements(s) <= u && (i < |s| || |s| == 0)
    requires var l, r := 2 * i + 1, 2 * i + 2;
      var m := if l < |s| && cmp(s[l], s[i]) < 0 then l else i;
      e == if r < |s| && cmp(s[r], s[m]) < 0 then r else m
    ensures e != i ==> e < |s| && Parent(e) == i && cmp(s[e], s[i]) < 0
    ensures e < |s| ==> forall k | 1 <= k < |s| && Parent(k) == i :: cmp(s[e], s[k]) <= 0
  {
    InElements(s, u);
    if |s| > 0 {
      assert cmp(s[i], s[i]) <= 0;
    }
  }

  // ---------- the heap ----------

  class Sheap<D(0)> {
    var data: array<D>
    var size: nat
    var space: nat
    var compare: Compare<D>
    /** Any order but ECORE_SORT_MIN. */
    var max: bool
    var sorted: bool

    /** The comparison in the direction of the heap. */
    ghost function Order(): Compare<D>
      reads this
    {
      Directed(compare, if max then -1 else 1)
    }

    ghost predicate Fits()
      reads this
    {
      size <= data.Length && size <= space
    }

    ghost function Items(): seq<D>
      reads this, data
      requires Fits()
    {
      data[..size]
    }

    /** Heap order, and full order once the sorted flag is set. */
    ghost predicate Valid()
      reads this, data
    {
      Fits() && HeapOrdered(Order(), Items()) && (sorted ==> Sorted(Order(), Items()))
    }

    /** ecore_sheap_new; NULL stands for direct comparison, which is one more comparison function. */
    constructor (compare: Compare<D>, size: nat)
      ensures Valid() && Items() == [] && this.compare == compare && !max && space == size && data.Length == space
      ensures fresh(data)
    {
      this.compare := compare;
      this.size := 0;
      space := size;
      max, sorted := false, false;
      data := new D[size];
    }

    /** The loop of ecore_sheap_insert that moves the last item up. */
    method SiftUp(ghost u: set<D>)
      requires Fits() && size > 0 && UpHeap(Order(), Items(), size - 1)
      requires PreorderOn(Order(), u) && Elements(Items()) <= u
      modifies data
      ensures HeapOrdered(Order(), Items()) && multiset(Items()) == old(multiset(Items()))
    {
      hide UpHeap, HeapOrdered, PreorderOn, Elements, Directed, Swap;
      var position: int, i: int := size - 1, size;
      var parent: int := i / 2 - 1;
      ghost var cmp, s := Order(), Items();
      while position > 0 && Wrong(data[parent], data[position])
        invariant 0 <= position < size && i == position + 1 && parent == i / 2 - 1
        invariant s == Items() && UpHeap(cmp, s, position) && Elements(s) <= u
        invariant multiset(s) == old(multiset(Items()))
        decreases position
      {
        var temp := data[position];
        data[position] := data[parent];
        data[parent] := temp;
        SwappedItems(s, Items(), parent, position);
        UpStep(cmp, s, Items(), position, u);
        s := Items();
        i := i / 2;
        position := i - 1;
        parent := i / 2 - 1;
      }
      UpDone(cmp, s, position);
    }

    /** The test of the two loops: the upper item should come after the lower one. */
    predicate Wrong(upper: D, lower: D)
      reads this
      ensures Wrong(upper, lower) <==> Order()(upper, lower) > 0
    {
      if !max then compare(upper, lower) > 0 else compare(upper, lower) < 0
    }

    /** The test of heapify: the lower item should come before the upper one. */
    predicate Before(lower: D, upper: D)
      reads this
      ensures Before(lower, upper) <==> Order()(lower, upper) < 0
    {
      if !max then compare(lower, upper) < 0 else compare(lower, upper) > 0
    }

    /** ecore_sheap_insert. */
    method Insert(item: D) returns (ok: bool)
      requires Valid() && (size < space ==> size < data.Length)
      requires PreorderOn(Order(), Elements(Items()) + {item})
      modifies this`sorted, this`size, data
      ensures Valid() && ok == (old(size) < space)
      ensures multiset(Items()) == old(multiset(Items())) + if ok then multiset{item} else multiset{}
      ensures ok ==> !sorted
    {
      if size >= space { return false; }
      sorted := false;
      ghost var s, u := Items(), Elements(Items()) + {item};
      data[size] := item;
      size := size + 1;
      assert Items() == s + [item];
      SiftUp(u);
      return true;
    }

    /** The choice of _ecore_sheap_heapify between a slot and its two children; slots are counted from 1. */
    method PickExtreme(i: nat, ghost u: set<D>) returns (extreme: nat)
      requires Fits() && 1 <= i && (i <= size || size == 0)
      requires PreorderOn(Order(), u) && Elements(Items()) <= u
      ensures extreme >= 1
      ensures extreme != i ==>
                1 < extreme <= size && Parent(extreme - 1) == i - 1 && Order()(Items()[extreme - 1], Items()[i - 1]) < 0
      ensures extreme <= size ==>
                forall k | 1 <= k < size && Parent(k) == i - 1 :: Order()(Items()[extreme - 1], Items()[k]) <= 0
    {
      hide PreorderOn, Elements, Directed;
      var left, right := 2 * i, 2 * i + 1;
      extreme := i;
      if left <= size && Before(data[left - 1], data[i - 1]) {
        extreme := left;
      }
      if right <= size && Before(data[right - 1], data[extreme - 1]) {
        extreme := right;
      }
      Children(Order(), Items(), i - 1, extreme - 1, u);
    }

    /** _ecore_sheap_heapify. */
    method Heapify(i: nat, ghost u: set<D>)
      requires Fits() && 1 <= i && (i <= size || size == 0) && DownHeap(Order(), Items(), i - 1)
      requires PreorderOn(Order(), u) && Elements(Items()) <= u
      modifies data
      ensures HeapOrdered(Order(), Items()) && multiset(Items()) == old(multiset(Items()))
      decreases size - i
    {
      hide DownHeap, HeapOrdered, PreorderOn, Elements, Directed, Swap;
      ghost var cmp, s := Order(), Items();
      var extreme := PickExtreme(i, u);
      if extreme != i {
        var temp := data[extreme - 1];
        data[extreme - 1] := data[i - 1];
        data[i - 1] := temp;
        SwappedItems(s, Items(), i - 1, extreme - 1);
        DownStep(cmp, s, Items(), i - 1, extreme - 1, u);
        Heapify(extreme, u);
      } else {
        DownDone(cmp, s, i - 1);
      }
    }

    /** The last item takes the place of the first. */
    method LastToTop(ghost s: seq<D>)
      requires Fits() && size > 0 && s == Items()
      modifies this`size, data
      ensures Fits() && size == |s| - 1 && Items() == s[0 := s[|s| - 1]][..|s| - 1]
    {
      size := size - 1;
      data[0] := data[size];
      ghost var t := s[0 := s[|s| - 1]][..|s| - 1];
      assert |t| == size && forall k | 0 <= k < size :: Items()[k] == t[k];
    }

    /** Taking the top off a heap that is not empty. */
    method TakeTop(ghost s: seq<D>) returns (extreme: D)
      requires Fits() && s == Items() && s != [] && HeapOrdered(Order(), s) && PreorderOn(Order(), Elements(s))
      modifies this`size, data
      ensures Fits() && size == |s| - 1 && extreme == s[0]
      ensures HeapOrdered(Order(), Items()) && multiset(Items()) == multiset(s) - multiset{extreme}
    {
      hide DownHeap, HeapOrdered, PreorderOn, Elements, Directed;
      extreme := data[0];
      LastOnTop(Order(), s);
      LastToTop(s);
      FewerElements(Items(), s);
      Heapify(1, Elements(s));
    }

    /** ecore_sheap_extract. */
    method Extract() returns (extreme: Option<D>)
      requires Valid() && PreorderOn(Order(), Elements(Items()))
      modifies this`sorted, this`size, data
      ensures Valid()
      ensures old(size) == 0 ==> extreme == None && size == 0 && sorted == old(sorted)
      ensures old(size) > 0 ==>
                && extreme.Some? && extreme.value == old(Items())[0] && size == old(size) - 1 && !sorted
                && (forall k | 0 <= k < old(size) :: Order()(extreme.value, old(Items())[k]) <= 0)
                && multiset(Items()) == old(multiset(Items())) - multiset{extreme.value}
      ensures extreme.Some? ==> forall k | 0 <= k < old(size) ::
                if max then compare(extreme.value, old(Items())[k]) >= 0
                else compare(extreme.value, old(Items())[k]) <= 0
    {
      hide HeapOrdered, PreorderOn, Elements;
      if size < 1 { return None; }
      sorted := false;
      ghost var s := Items();
      forall k | 0 <= k < |s| ensures Order()(s[0], s[k]) <= 0 { TopIsExtreme(Order(), s, k, Elements(s)); }
      var top := TakeTop(s);
      extreme := Some(top);
    }

    /** ecore_sheap_extreme. */
    method Extreme() returns (r: Option<D>)
      requires Valid() && PreorderOn(Order(), Elements(Items()))
      ensures size == 0 ==> r == None
      ensures size > 0 ==> r.Some? && r.value in Items() && forall x | x in Items() :: Order()(r.value, x) <= 0
      ensures size > 0 ==>
                forall x | x in Items() :: if max then compare(r.value, x) >= 0 else compare(r.value, x) <= 0
    {
      if size < 1 { return None; }
      forall x | x in Items() ensures Order()(data[0], x) <= 0 {
        var k :| 0 <= k < size && data[k] == x;
        TopIsExtreme(Order(), Items(), k, Elements(Items()));
      }
      r := Some(data[0]);
    }

    /** ecore_sheap_sort. */
    method Sort()
      requires Valid() && PreorderOn(Order(), Elements(Items()))
      modifies this`sorted, this`size, this`data, data
      ensures Valid() && sorted && multiset(Items()) == old(multiset(Items())) && Order() == old(Order())
      ensures size == old(size) && fresh(data) && data.Length == size && InOrder(compare, max, Items())
    {
      hide PreorderOn, Elements, HeapOrdered, Directed, Moving, Sorted, InOrder;
      ghost var cmp, s0 := Order(), Items();
      var newData := new D[size];
      var i := 0;
      MovingBegins(cmp, s0, s0);
      while size > 0
        invariant i + size == |s0| == newData.Length && Fits() && data == old(data)
        invariant HeapOrdered(cmp, Items()) && Order() == cmp
        invariant Moving(cmp, s0, newData[..i], Items())
        decreases size
      {
        ghost var rest, out := Items(), newData[..i];
        MovingFacts(cmp, s0, out, rest);
        sorted := false;
        var top := TakeTop(rest);
        newData[i] := top;
        i := i + 1;
        MovingTurn(cmp, s0, out, rest, newData[..i], Items());
      }
      data := newData;
      size := i;
      sorted := true;
      MovingEnd(cmp, s0, Items());
      DirectedInOrder(compare, max, Items());
    }

    /** ecore_sheap_item: the item at position i in the order of the heap. */
    method Item(i: nat) returns (r: Option<D>)
      requires Valid() && PreorderOn(Order(), Elements(Items()))
      modifies this`sorted, this`size, this`data, data
      ensures Valid() && size == old(size) && multiset(Items()) == old(multiset(Items())) && Order() == old(Order())
      ensures i >= size ==> r == None && Items() == old(Items())
      ensures i < size ==> sorted && r == Some(Items()[i]) && Sorted(Order(), Items()) && InOrder(compare, max, Items())
      ensures data == old(data) || (fresh(data) && data.Length == size)
    {
      hide PreorderOn, Elements, HeapOrdered, Directed, Sorted, InOrder;
      if i >= size { return None; }
      if !sorted {
        Sort();
      }
      DirectedInOrder(compare, max, Items());
      r := Some(data[i]);
    }

    /** Inserts item i of s behind those in front of it. */
    method Reinsert(item: D, ghost s: seq<D>, ghost i: nat)
      requires Valid() && size == i < |s| && s[i] == item && |s| <= space == data.Length
      requires multiset(Items()) == multiset(s[..i]) && PreorderOn(Order(), Elements(s))
      modifies this`sorted, this`size, data
      ensures Valid() && size == i + 1 && multiset(Items()) == multiset(s[..i + 1])
    {
      hide PreorderOn, Elements, HeapOrdered, Directed, Sorted;
      InsertOrder(Order(), s, Items(), i);
      var ok := Insert(item);
      assert s[..i + 1] == s[..i] + [s[i]];
      ItemsCount(Items(), s[..i + 1]);
    }

    /** _ecore_sheap_update_data: every item is inserted again, into a new array. */
    method UpdateData()
      requires Fits() && PreorderOn(Order(), Elements(Items()))
      modifies this`data, this`size, this`sorted
      ensures Valid() && multiset(Items()) == old(multiset(Items())) && Order() == old(Order())
      ensures size == old(size) && data.Length == space && fresh(data)
    {
      hide PreorderOn, Elements, HeapOrdered, Directed, Sorted;
      ghost var cmp, s := Order(), Items();
      var oldSize, was := size, data;
      size := 0;
      data := new D[space];
      NothingYet(cmp);
      var i := 0;
      while i < oldSize
        invariant 0 <= i <= oldSize && Valid() && Order() == cmp && size == i
        invariant data.Length == space && fresh(data) && s == was[..oldSize]
        invariant multiset(Items()) == multiset(s[..i])
      {
        Reinsert(was[i], s, i);
        i := i + 1;
      }
      assert s[..i] == s;
    }

    /** ecore_sheap_order_set. */
    method OrderSet(max: bool)
      requires Fits() && PreorderOn(Directed(compare, if max then -1 else 1), Elements(Items()))
      modifies this
      ensures Valid() && this.max == max && compare == old(compare) && space == old(space)
      ensures multiset(Items()) == old(multiset(Items())) && size == old(size) && data.Length == space && fresh(data)
    {
      this.max := max;
      UpdateData();
    }

    /** ecore_sheap_compare_set. */
    method CompareSet(compare: Compare<D>)
      requires Fits() && PreorderOn(Directed(compare, if max then -1 else 1), Elements(Items()))
      modifies this
      ensures Valid() && this.compare == compare && max == old(max) && space == old(space)
      ensures multiset(Items()) == old(multiset(Items())) && size == old(size) && data.Length == space && fresh(data)
    {
      this.compare := compare;
      UpdateData();
    }
  }
}
