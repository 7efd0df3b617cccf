/** Notions that every part of the project uses. */
module Basics {

  datatype Option<+V> = None | Some(value: V) {
    predicate IsFailure() { None? }

    function PropagateFailure<U>(): Option<U>
      requires None?
    {
      None
    }

    function Extract(): V
      requires Some?
    {
      value
    }
  }

  /** No element occurs twice. */
  ghost predicate NoDup<T>(s: seq<T>) {
    forall i, j | 0 <= i < j < |s| :: s[i] != s[j]
  }

  /** All elements are in u. */
  ghost predicate Within<T>(s: seq<T>, u: set<T>) {
    forall i | 0 <= i < |s| :: s[i] in u
  }

  function RemoveAt<T>(s: seq<T>, i: nat): (r: seq<T>)
    requires i < |s|
    ensures |r| == |s| - 1
  {
    s[..i] + s[i + 1..]
  }

  /** A stack without its top. */
  function Popped<T>(s: seq<T>): seq<T> {
    if s == [] then [] else s[..|s| - 1]
  }

  lemma Assoc<T>(a: seq<T>, b: seq<T>, c: seq<T>)
    ensures a + b + c == a + (b + c)
  {
  }
}
