/** Optional values: the model's stand-in for a JavaScript value that may be `undefined`. */
module Wrappers {

  datatype Option<+T> = None | Some(value: T)

  /** `xs.find(p)`: the first element satisfying `p`, if any. */
  function Find<T>(xs: seq<T>, p: T -> bool): Option<T> {
    if |xs| == 0 then None
    else if p(xs[0]) then Some(xs[0])
    else Find(xs[1..], p)
  }

  /** `Find` misses exactly when no element satisfies `p`, and otherwise returns the
      element at the first position that does. */
  lemma {:induction false} FindSpec<T>(xs: seq<T>, p: T -> bool)
    ensures Find(xs, p).None? <==> forall i :: 0 <= i < |xs| ==> !p(xs[i])
    ensures Find(xs, p).Some? ==> exists k :: 0 <= k < |xs| && xs[k] == Find(xs, p).value && p(xs[k]) &&
                                    forall i :: 0 <= i < k ==> !p(xs[i])
  {
    if |xs| > 0 && !p(xs[0]) {
      FindSpec(xs[1..], p);
      if Find(xs, p).Some? {
        var k :| 0 <= k < |xs[1..]| && xs[1..][k] == Find(xs, p).value && p(xs[1..][k]) &&
                 forall i :: 0 <= i < k ==> !p(xs[1..][i]);
        assert xs[k + 1] == xs[1..][k];
        assert forall i :: 0 < i < k + 1 ==> xs[i] == xs[1..][i - 1];
      }
    }
  }

  /** `xs.findIndex(p)`: the index of the first element satisfying `p`, or -1. */
  function FindIndex<T>(xs: seq<T>, p: T -> bool): (r: int)
    ensures -1 <= r < |xs|
    ensures r == -1 <==> forall i :: 0 <= i < |xs| ==> !p(xs[i])
    ensures 0 <= r ==> p(xs[r]) && forall i :: 0 <= i < r ==> !p(xs[i])
  {
    if |xs| == 0 then -1
    else if p(xs[0]) then 0
    else
      var k := FindIndex(xs[1..], p);
      if k == -1 then -1 else k + 1
  }
}
