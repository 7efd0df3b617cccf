/** Compacting the model directory of edje_cc_out.c: unused entries are overwritten by the last one. */
module ModelDirectory {
  import opened Basics

  /** Edje_Model_Directory_Entry. */
  datatype Entry = Entry(name: Option<string>, id: int)

  /** Image_Unused_Ids, which the model directory shares. */
  datatype Unused = Unused(oldId: int, newId: int)

  predicate InUse(e: Entry, used: set<string>) {
    e.name.Some? && e.name.value in used
  }

  /** The loop of data_process_lookups from index i on: the entries left and the ids recorded. */
  function Compacted(s: seq<Entry>, used: set<string>, i: nat): (r: (seq<Entry>, seq<Unused>))
    ensures |r.0| <= |s|
    decreases |s| - i + |s|
  {
    if i >= |s| then (s, [])
    else if InUse(s[i], used) then Compacted(s, used, i + 1)
    else
      var last := |s| - 1;
      var (t, ids) := Compacted(Refilled(s, i), used, i);
      (t, [Unused(s[last].id, i)] + ids)
  }

  /** The last entry moves to index i, and takes that as its id. */
  function Refilled(s: seq<Entry>, i: nat): (t: seq<Entry>)
    requires i < |s|
    ensures |t| == |s| - 1
  {
    s[i := s[|s| - 1].(id := i)][..|s| - 1]
  }

  /** One reference in _data_model_id_update: the first id recorded for it, itself if there is none. */
  function Remap(ids: seq<Unused>, id: int): int {
    if ids == [] then id else if ids[0].oldId == id then ids[0].newId else Remap(ids[1..], id)
  }

  /** The loop over the list of recorded ids. */
  method UpdateId(ids: seq<Unused>, id: int) returns (r: int)
    ensures r == Remap(ids, id)
  {
    r := id;
    var i := 0;
    assert ids[0..] == ids;
    while i < |ids|
      invariant i <= |ids| && r == id && Remap(ids[i..], id) == Remap(ids, id)
    {
      assert ids[i..][0] == ids[i] && ids[i..][1..] == ids[i + 1..];
      if ids[i].oldId == id { return ids[i].newId; }
      i := i + 1;
    }
  }

  class ModelDirectory {
    var entries: array<Entry>
    var count: nat

    ghost predicate Valid()
      reads this
    {
      count <= entries.Length
    }

    constructor (entries: array<Entry>)
      ensures Valid() && this.entries == entries && count == entries.Length
    {
      this.entries := entries;
      count := entries.Length;
    }

    /** The compaction loop. */
    method Compact(used: set<string>) returns (ids: seq<Unused>)
      requires Valid()
      modifies this`count, entries
      ensures Valid() && (entries[..count], ids) == Compacted(old(entries[..count]), used, 0)
    {
      ids := [];
      var i := 0;
      ghost var s := entries[..count];
      ghost var goal := Compacted(s, used, 0);
      assert ids + goal.1 == goal.1;
      while i < count
        invariant Valid() && i <= count && s == entries[..count]
        invariant Compacted(s, used, i).0 == goal.0 && ids + Compacted(s, used, i).1 == goal.1
        decreases count - i + count
      {
        if InUse(entries[i], used) {
          i := i + 1;
        } else {
          var last := count - 1;
          var move := Unused(entries[last].id, i);
          assert ids + ([move] + Compacted(Refilled(s, i), used, i).1)
                 == ids + [move] + Compacted(Refilled(s, i), used, i).1;
          ids := ids + [move];
          entries[i] := entries[last].(id := i);
          count := count - 1;
          assert entries[..count] == Refilled(s, i);
          s := entries[..count];
        }
      }
      assert ids + [] == ids;
    }
  }

  // ---------- meaning ----------

  /** Ids are indices. */
  ghost predicate Numbered(s: seq<Entry>) {
    forall k | 0 <= k < |s| :: s[k].id == k
  }

  ghost function CountInUse(s: seq<Entry>, used: set<string>): nat {
    if s == [] then 0 else CountInUse(s[..|s| - 1], used) + if InUse(s[|s| - 1], used) then 1 else 0
  }

  /** The recorded ids are those of the entries taken off the end, last one first. */
  ghost predicate FromTheEnd(ids: seq<Unused>, n: nat) {
    |ids| <= n && forall k | 0 <= k < |ids| :: ids[k].oldId == n - 1 - k
  }

  lemma {:induction false} RemapBelow(ids: seq<Unused>, n: nat, id: nat)
    requires FromTheEnd(ids, n) && id < n - |ids|
    ensures Remap(ids, id) == id
    decreases |ids|
  {
    if ids != [] {
      assert forall k | 0 <= k < |ids| - 1 :: ids[1..][k] == ids[k + 1];
      RemapBelow(ids[1..], n - 1, id);
    }
  }

  /** Entries in front of i stay, the ids recorded run down from the last index, and all that is left is in use. */
  lemma {:induction false} CompactedShape(s: seq<Entry>, used: set<string>, i: nat)
    requires Numbered(s) && i <= |s| && forall k | 0 <= k < i :: InUse(s[k], used)
    ensures var (t, ids) := Compacted(s, used, i);
      && i <= |t| && t[..i] == s[..i] && Numbered(t) && (forall k | 0 <= k < |t| :: InUse(t[k], used))
      && FromTheEnd(ids, |s|) && |ids| == |s| - |t|
    decreases |s| - i + |s|
  {
    if i < |s| {
      if InUse(s[i], used) {
        CompactedShape(s, used, i + 1);
      } else {
        var u := Refilled(s, i);
        CompactedShape(u, used, i);
        assert u[..i] == s[..i];
      }
    }
  }

  /** Where an entry of s is after one removal. */
  ghost function Moved(n: nat, i: nat, r: nat): nat
    requires r < n
  {
    if r == n - 1 then i else r
  }

  lemma MovedEntry(s: seq<Entry>, used: set<string>, i: nat, r: nat)
    requires Numbered(s) && i < |s| && r < |s| && r != i
    ensures Moved(|s|, i, r) < |s| - 1 && Refilled(s, i)[Moved(|s|, i, r)].name == s[r].name
  {
  }

  /** The new id of r after a removal at i is the new id, from then on, of where r has gone. */
  lemma RemapStep(s: seq<Entry>, used: set<string>, i: nat, r: nat)
    requires Numbered(s) && i < |s| && !InUse(s[i], used) && r < |s| && InUse(s[r], used)
    requires forall k | 0 <= k < i :: InUse(s[k], used)
    ensures r != i
    ensures Remap(Compacted(s, used, i).1, r) == Remap(Compacted(Refilled(s, i), used, i).1, Moved(|s|, i, r))
  {
    var u, ids := Refilled(s, i), Compacted(Refilled(s, i), used, i).1;
    assert Compacted(s, used, i).1 == [Unused(s[|s| - 1].id, i)] + ids;
    if r == |s| - 1 {
      // the moved entry stays where it is: later removals only record ids above it
      CompactedShape(u, used, i + 1);
      RemapBelow(ids, |u|, i);
    }
  }

  /** A reference to a used entry leads to an entry of the same name. */
  lemma {:induction false} ReferenceKept(s: seq<Entry>, used: set<string>, i: nat, r: nat)
    requires Numbered(s) && i <= |s| && (forall k | 0 <= k < i :: InUse(s[k], used)) && r < |s| && InUse(s[r], used)
    ensures var (t, ids) := Compacted(s, used, i);
      var id := Remap(ids, r); 0 <= id < |t| && t[id].name == s[r].name && t[id].id == id
    decreases |s| - i + |s|
  {
    CompactedShape(s, used, i);
    if i < |s| {
      if InUse(s[i], used) {
        ReferenceKept(s, used, i + 1, r);
      } else {
        RemapStep(s, used, i, r);
        MovedEntry(s, used, i, r);
        ReferenceKept(Refilled(s, i), used, i, Moved(|s|, i, r));
      }
    }
  }

  /** Different used entries stay different. */
  lemma {:induction false} ReferencesApart(s: seq<Entry>, used: set<string>, i: nat, r: nat, q: nat)
    requires Numbered(s) && i <= |s| && forall k | 0 <= k < i :: InUse(s[k], used)
    requires r < |s| && InUse(s[r], used) && q < |s| && InUse(s[q], used) && r != q
    ensures var ids := Compacted(s, used, i).1; Remap(ids, r) != Remap(ids, q)
    decreases |s| - i + |s|
  {
    if i < |s| {
      if InUse(s[i], used) {
        ReferencesApart(s, used, i + 1, r, q);
      } else {
        RemapStep(s, used, i, r);
        RemapStep(s, used, i, q);
        MovedEntry(s, used, i, r);
        MovedEntry(s, used, i, q);
        ReferencesApart(Refilled(s, i), used, i, Moved(|s|, i, r), Moved(|s|, i, q));
      }
    }
  }

  lemma {:induction false} CountUpdate(s: seq<Entry>, used: set<string>, i: nat, e: Entry)
    requires i < |s|
    ensures CountInUse(s[i := e], used)
         == CountInUse(s, used) + (if InUse(e, used) then 1 else 0) - (if InUse(s[i], used) then 1 else 0)
    decreases |s|
  {
    var n := |s| - 1;
    if i < n {
      assert s[i := e][..n] == s[..n][i := e];
      CountUpdate(s[..n], used, i, e);
    } else {
      assert s[i := e][..n] == s[..n];
    }
  }

  /** As many entries are left as were in use. */
  lemma {:induction false} CompactedCount(s: seq<Entry>, used: set<string>, i: nat)
    requires Numbered(s) && i <= |s| && forall k | 0 <= k < i :: InUse(s[k], used)
    ensures |Compacted(s, used, i).0| == CountInUse(s, used)
    decreases |s| - i + |s|
  {
    if i == |s| {
      AllInUse(s, used);
    } else if InUse(s[i], used) {
      CompactedCount(s, used, i + 1);
    } else {
      var e := s[|s| - 1].(id := i);
      CountUpdate(s, used, i, e);
      CompactedCount(Refilled(s, i), used, i);
    }
  }

  lemma {:induction false} AllInUse(s: seq<Entry>, used: set<string>)
    requires forall k | 0 <= k < |s| :: InUse(s[k], used)
    ensures CountInUse(s, used) == |s|
    decreases |s|
  {
    if s != [] { AllInUse(s[..|s| - 1], used); }
  }

  /** Compacting a directory whose ids are its indices keeps exactly the used entries, numbers them by index
      again, and gives a list of ids that sends every reference to a used entry to the entry of that name, no two
      of them to the same. */
  lemma CompactionKeepsMeaning(s: seq<Entry>, used: set<string>)
    requires Numbered(s)
    ensures var (t, ids) := Compacted(s, used, 0);
      && Numbered(t) && |t| == CountInUse(s, used) && (forall k | 0 <= k < |t| :: InUse(t[k], used))
      && (forall r | 0 <= r < |s| && InUse(s[r], used) ::
            0 <= Remap(ids, r) < |t| && t[Remap(ids, r)].name == s[r].name)
      && (forall r, q | 0 <= r < q < |s| && InUse(s[r], used) && InUse(s[q], used) :: Remap(ids, r) != Remap(ids, q))
  {
    hide Compacted, Remap;
    CompactedShape(s, used, 0);
    CompactedCount(s, used, 0);
    var (t, ids) := Compacted(s, used, 0);
    forall r | 0 <= r < |s| && InUse(s[r], used)
      ensures 0 <= Remap(ids, r) < |t| && t[Remap(ids, r)].name == s[r].name
    {
      ReferenceKept(s, used, 0, r);
    }
    forall r, q | 0 <= r < q < |s| && InUse(s[r], used) && InUse(s[q], used) ensures Remap(ids, r) != Remap(ids, q) {
      ReferencesApart(s, used, 0, r, q);
    }
  }

  /** A reference that is no index, as the -1 of a mesh node without a model, is left alone. */
  lemma OutsideKept(s: seq<Entry>, used: set<string>, id: int)
    requires Numbered(s) && !(0 <= id < |s|)
    ensures Remap(Compacted(s, used, 0).1, id) == id
  {
    CompactedShape(s, used, 0);
    RemapOutside(Compacted(s, used, 0).1, |s|, id);
  }

  lemma {:induction false} RemapOutside(ids: seq<Unused>, n: nat, id: int)
    requires FromTheEnd(ids, n) && !(0 <= id < n)
    ensures Remap(ids, id) == id
    decreases |ids|
  {
    if ids != [] {
      assert forall k | 0 <= k < |ids| - 1 :: ids[1..][k] == ids[k + 1];
      RemapOutside(ids[1..], n - 1, id);
    }
  }
}
