/** Rectangular character grids and the quarter turn that Days 13 and 14
    both build from `zip(*rows)`. */
module Grids {

  type Grid = seq<seq<char>>

  /** Every row has exactly `w` cells. */
  predicate Rect(g: Grid, w: nat)
  {
    forall r :: 0 <= r < |g| ==> |g[r]| == w
  }

  /** How many tuples `zip(*g)` yields: the length of the shortest row. */
  function Width(g: Grid): (w: nat)
    ensures forall r :: 0 <= r < |g| ==> w <= |g[r]|
  {
    if g == [] then 0
    else if |g| == 1 then |g[0]|
    else
      var w := Width(g[1..]);
      assert forall r :: 1 <= r < |g| ==> g[r] == g[1..][r - 1];
      if |g[0]| <= w then |g[0]| else w
  }

  lemma {:induction false} WidthRect(g: Grid, w: nat)
    requires g != [] && Rect(g, w)
    ensures Width(g) == w
  {
    if |g| > 1 {
      assert Rect(g[1..], w) by {
        forall r | 0 <= r < |g| - 1 ensures |g[1..][r]| == w {
          assert g[1..][r] == g[r + 1];
        }
      }
      WidthRect(g[1..], w);
    }
  }

  /** The first `w` columns of `g`, each read from the bottom up. */
  function TurnW(g: Grid, w: nat): (t: Grid)
    requires forall r :: 0 <= r < |g| ==> w <= |g[r]|
    ensures |t| == w && Rect(t, |g|)
    ensures forall i, k :: 0 <= i < w && 0 <= k < |g| ==> t[i][k] == g[|g| - 1 - k][i]
  {
    seq(w, i requires 0 <= i < w => seq(|g|, k requires 0 <= k < |g| => g[|g| - 1 - k][i]))
  }

  /** `[list(reversed(i)) for i in zip(*rock_map)]` (D14/d14p1.py,
      D14/d14p2.py) and `[''.join(reversed(i)) for i in zip(*pattern)]`
      (D13/d13p1.py, D13/d13p2.py): a quarter turn clockwise, so that row
      `i` of the result is column `i` read from the bottom up. */
  function Turn(g: Grid): (t: Grid)
    ensures |t| == Width(g) && Rect(t, |g|)
    ensures forall i, k :: 0 <= i < |t| && 0 <= k < |g| ==> t[i][k] == g[|g| - 1 - k][i]
  {
    TurnW(g, Width(g))
  }
}
