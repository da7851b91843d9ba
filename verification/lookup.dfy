/**
 * The search every `valueOf` of the enum classes performs: walk the constants
 * in declaration order and return the first one whose key matches, or null.
 */
module Lookup {
  import opened Base

  /** The first of `values` whose key is `k`; `None` plays Java's `null`. */
  function Find<T, K(==)>(values: seq<T>, key: T -> K, k: K): (r: Option<T>)
    ensures r.Some? ==> exists i :: 0 <= i < |values| && values[i] == r.value && key(values[i]) == k
    ensures r.None? ==> forall i :: 0 <= i < |values| ==> key(values[i]) != k
  {
    if values == [] then None
    else if key(values[0]) == k then Some(values[0])
    else
      var r := Find(values[1..], key, k);
      assert forall i :: 1 <= i < |values| ==> values[i] == values[1..][i - 1];
      r
  }

  /** No two constants share a key. */
  ghost predicate KeysDistinct<T, K>(values: seq<T>, key: T -> K)
  {
    forall i, j :: 0 <= i < j < |values| ==> key(values[i]) != key(values[j])
  }

  /** With distinct keys, searching for a constant's own key finds that constant. */
  lemma {:induction false} FindOwnKey<T, K>(values: seq<T>, key: T -> K, i: int)
    requires KeysDistinct(values, key)
    requires 0 <= i < |values|
    ensures Find(values, key, key(values[i])) == Some(values[i])
  {
    if i > 0 {
      assert key(values[0]) != key(values[i]);
      assert values[1..][i - 1] == values[i];
      FindOwnKey(values[1..], key, i - 1);
    }
  }
}
