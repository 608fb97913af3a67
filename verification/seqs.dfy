/** Counting facts about sequences: distinct values, repeated occurrences. */
module Seqs {

  /** The set of values occurring in `xs` (JavaScript's `new Set(xs)`). */
  function Elems<T(==)>(xs: seq<T>): set<T> {
    set x | x in xs
  }

  predicate NoDuplicates<T(==)>(xs: seq<T>) {
    forall i, j :: 0 <= i < j < |xs| ==> xs[i] != xs[j]
  }

  lemma ElemsCons<T>(x: T, xs: seq<T>)
    ensures Elems([x] + xs) == {x} + Elems(xs)
  {
    assert forall y :: y in [x] + xs <==> y == x || y in xs;
  }

  lemma ElemsSnoc<T>(xs: seq<T>, x: T)
    ensures Elems(xs + [x]) == Elems(xs) + {x}
  {
    assert forall y :: y in xs + [x] <==> y in xs || y == x;
  }

  /** A sequence has at most as many distinct values as elements, and exactly as
      many precisely when no value repeats. */
  lemma {:induction false} ElemsCard<T>(xs: seq<T>)
    ensures |Elems(xs)| <= |xs|
    ensures |Elems(xs)| == |xs| <==> NoDuplicates(xs)
  {
    if |xs| > 0 {
      var x, rest := xs[0], xs[1..];
      assert xs == [x] + rest;
      ElemsCons(x, rest);
      ElemsCard(rest);
      if x in rest {
        assert Elems(xs) == Elems(rest);
        var k :| 0 <= k < |rest| && rest[k] == x;
        assert xs[0] == xs[k + 1];
      } else {
        assert |Elems(xs)| == |Elems(rest)| + 1;
        if NoDuplicates(rest) {
          forall i, j | 0 <= i < j < |xs|
            ensures xs[i] != xs[j]
          {
            if i > 0 {
              assert xs[i] == rest[i - 1] && xs[j] == rest[j - 1];
            } else {
              assert xs[j] == rest[j - 1];
            }
          }
        } else {
          var i, j :| 0 <= i < j < |rest| && rest[i] == rest[j];
          assert xs[i + 1] == xs[j + 1];
        }
      }
    }
  }

  /** Occurrences beyond the first of every value: `xs.length - new Set(xs).size`. */
  function Excess<T(==)>(xs: seq<T>): (r: int)
    ensures r >= 0
  {
    ElemsCard(xs);
    |xs| - |Elems(xs)|
  }

  /** No excess occurrence exactly when no value repeats. */
  lemma ExcessZeroIff<T>(xs: seq<T>)
    ensures Excess(xs) == 0 <==> NoDuplicates(xs)
  {
    ElemsCard(xs);
  }

  /** Appending a value adds one excess occurrence exactly when the value is already present. */
  lemma ExcessSnoc<T>(xs: seq<T>, x: T)
    ensures Excess(xs + [x]) == Excess(xs) + (if x in xs then 1 else 0)
  {
    ElemsSnoc(xs, x);
    assert x in xs <==> x in Elems(xs);
  }

  /** One step of a scan with a seen-set: the set grows by the value, and the excess grows
      exactly when the value was already seen. */
  lemma SeenStep<T>(xs: seq<T>, x: T)
    ensures Elems(xs + [x]) == Elems(xs) + {x}
    ensures Excess(xs + [x]) == Excess(xs) + (if x in Elems(xs) then 1 else 0)
  {
    ExcessSnoc(xs, x);
    ElemsSnoc(xs, x);
  }

  lemma NoDuplicatesSnoc<T>(xs: seq<T>, x: T)
    ensures NoDuplicates(xs + [x]) <==> x !in xs && NoDuplicates(xs)
  {
    var ys := xs + [x];
    if x in xs {
      var k :| 0 <= k < |xs| && xs[k] == x;
      assert ys[k] == ys[|xs|];
    }
    if !NoDuplicates(xs) {
      var i, j :| 0 <= i < j < |xs| && xs[i] == xs[j];
      assert ys[i] == ys[j];
    }
    if x !in xs && NoDuplicates(xs) {
      forall i, j | 0 <= i < j < |ys|
        ensures ys[i] != ys[j]
      {
        assert ys[i] == xs[i];
        if j < |xs| {
          assert ys[j] == xs[j];
        }
      }
    }
  }

  /** `Elems` of a sequence whose values are pairwise distinct has its length. */
  lemma DistinctElemsCard<T>(xs: seq<T>)
    requires NoDuplicates(xs)
    ensures |Elems(xs)| == |xs|
  {
    ElemsCard(xs);
  }

  /** Number of elements of `xs` satisfying `p`. */
  function Count<T>(xs: seq<T>, p: T -> bool): (n: nat)
    ensures n <= |xs|
  {
    if |xs| == 0 then 0 else Count(xs[..|xs| - 1], p) + (if p(xs[|xs| - 1]) then 1 else 0)
  }

  lemma {:induction false} CountZero<T>(xs: seq<T>, p: T -> bool)
    ensures Count(xs, p) == 0 <==> forall k :: 0 <= k < |xs| ==> !p(xs[k])
  {
    if |xs| > 0 {
      var init := xs[..|xs| - 1];
      CountZero(init, p);
      assert forall k :: 0 <= k < |init| ==> init[k] == xs[k];
    }
  }

  /** A subset has at most as many elements. */
  lemma {:induction false} SubsetCard<T>(a: set<T>, b: set<T>)
    requires a <= b
    ensures |a| <= |b|
  {
    if a != {} {
      var x :| x in a;
      SubsetCard(a - {x}, b - {x});
    }
  }

  /** Taking away a subset takes away its elements' count. */
  lemma DifferenceCard<T>(a: set<T>, b: set<T>)
    requires b <= a
    ensures |a - b| == |a| - |b|
  {
    assert a == (a - b) + b && (a - b) * b == {};
  }
}
