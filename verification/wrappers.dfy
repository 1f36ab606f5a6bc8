/** Optional values, standing in for Kotlin's nullable types and Python's None, and the
    one sequence helper the task queues share. */
module Wrappers {

  datatype Option<+T> = None | Some(value: T) {

    /** The value, or `default` when there is none (Kotlin's `?:`). */
    function GetOr(default: T): T {
      match this
      case Some(v) => v
      case None => default
    }
  }

  /** Kotlin's `list?.lastOrNull()`: the last element, or None for a null or empty list. */
  function LastOrNone<T>(xs: Option<seq<T>>): (r: Option<T>)
    ensures r.Some? <==> xs.Some? && |xs.value| > 0
    ensures r.Some? ==> r.value == xs.value[|xs.value| - 1]
  {
    if xs.Some? && |xs.value| > 0 then Some(xs.value[|xs.value| - 1]) else None
  }

  /** A queue once the entry at position `k` has been taken out (run or dropped). */
  function RemoveAt<T>(q: seq<T>, k: nat): (r: seq<T>)
    requires k < |q|
    ensures |r| == |q| - 1
    ensures forall i :: 0 <= i < |r| ==> r[i] == (if i < k then q[i] else q[i + 1])
  {
    q[..k] + q[k + 1..]
  }
}
