/** Sequence helpers shared by several days. */
module Seqs {

  /** `xs[::-1]`. */
  function Reverse<T>(xs: seq<T>): (r: seq<T>)
    ensures |r| == |xs| && forall i :: 0 <= i < |xs| ==> r[i] == xs[|xs| - 1 - i]
  {
    if xs == [] then [] else Reverse(xs[1..]) + [xs[0]]
  }

  /** `xs.count(x)`. */
  function Count<T(==)>(xs: seq<T>, x: T): (n: nat)
    ensures n <= |xs| && (n == 0 <==> x !in xs)
  {
    if xs == [] then 0 else Count(xs[1..], x) + (if xs[0] == x then 1 else 0)
  }

  /** No element occurs twice. */
  predicate Distinct<T(==)>(xs: seq<T>)
  {
    forall i, j :: 0 <= i < j < |xs| ==> xs[i] != xs[j]
  }

  /** `set(xs)`. */
  function Elems<T>(xs: seq<T>): set<T>
  {
    set x | x in xs
  }

  /** A list without repeats whose elements are below `n` has at most `n`
      of them. */
  lemma {:induction false} DistinctBelow(xs: seq<nat>, n: nat)
    requires Distinct(xs) && forall i :: 0 <= i < |xs| ==> xs[i] < n
    ensures |xs| <= n
    decreases n
  {
    if xs != [] {
      // Drop the largest possible value, n - 1, and recur below it.
      if n - 1 in xs {
        var k :| 0 <= k < |xs| && xs[k] == n - 1;
        var rest := xs[..k] + xs[k + 1..];
        assert forall i :: 0 <= i < |rest| ==> rest[i] == (if i < k then xs[i] else xs[i + 1]);
        DistinctBelow(rest, n - 1);
      } else {
        DistinctBelow(xs, n - 1);
      }
    }
  }
}
