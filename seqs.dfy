/** List comprehensions with a condition, `[x for x in xs if p(x)]`, and what they keep. */
module Seqs {

  /** The elements of `xs` that satisfy `p`, in their original order. */
  function Filter<T>(xs: seq<T>, p: T -> bool): (r: seq<T>)
    ensures |r| <= |xs|
    ensures forall x :: x in r ==> x in xs && p(x)
  {
    if xs == [] then [] else (if p(xs[0]) then [xs[0]] else []) + Filter(xs[1..], p)
  }

  /** An element is kept exactly when it is in `xs` and satisfies `p`. */
  lemma {:induction false} FilterMembership<T>(xs: seq<T>, p: T -> bool, x: T)
    ensures x in Filter(xs, p) <==> x in xs && p(x)
  {
    if xs != [] {
      FilterMembership(xs[1..], p, x);
      assert xs == [xs[0]] + xs[1..];
    }
  }

  /**
   * A non-empty filter starts with the FIRST element of `xs` that satisfies `p`:
   * `j` is its index, and nothing before it satisfies `p`. An empty filter means
   * nothing satisfies `p`.
   */
  lemma {:induction false} FilterHead<T>(xs: seq<T>, p: T -> bool) returns (j: nat)
    ensures Filter(xs, p) != [] ==>
              j < |xs| && p(xs[j]) && Filter(xs, p)[0] == xs[j] &&
              forall i :: 0 <= i < j ==> !p(xs[i])
    ensures Filter(xs, p) == [] <==> forall i :: 0 <= i < |xs| ==> !p(xs[i])
  {
    if xs == [] {
      j := 0;
    } else if p(xs[0]) {
      j := 0;
    } else {
      var k := FilterHead(xs[1..], p);
      j := k + 1;
      assert forall i :: 1 <= i < |xs| ==> xs[i] == xs[1..][i - 1];
    }
  }
}
