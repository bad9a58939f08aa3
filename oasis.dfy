/** Day 9 (D09/d9p1.py, D9/d9p2.py): extrapolating an OASIS history by
    repeated differences. The solution stops descending as soon as one
    row of differences holds a single distinct value; the puzzle's own
    procedure descends until a row is all zeros. */
module Oasis {

  import opened Wrappers
  import opened Seqs

  /** `[seq[i+1] - seq[i] for i in range(len(seq) - 1)]`. */
  function Diffs(xs: seq<int>): (ds: seq<int>)
    ensures |xs| >= 1 ==> |ds| == |xs| - 1
    ensures xs == [] ==> ds == []
  {
    if |xs| <= 1 then [] else [xs[1] - xs[0]] + Diffs(xs[1..])
  }

  /** Each difference is a later value minus the one before. */
  lemma {:induction false} DiffsAt(xs: seq<int>)
    ensures forall i :: 0 <= i < |Diffs(xs)| ==> Diffs(xs)[i] == xs[i + 1] - xs[i]
  {
    if |xs| > 1 {
      DiffsAt(xs[1..]);
    }
  }

  /** One difference, by itself. */
  lemma {:induction false} DiffAt(xs: seq<int>, i: nat)
    requires i + 1 < |xs|
    ensures |Diffs(xs)| == |xs| - 1 && Diffs(xs)[i] == xs[i + 1] - xs[i]
    decreases i
  {
    if i > 0 {
      DiffAt(xs[1..], i - 1);
    }
  }

  /** The distinct values of a list, as `set(diffs)`. */
  function Distinct(ds: seq<int>): set<int>
  {
    set x | x in ds
  }

  lemma {:induction false} SubsetSize(a: set<int>, b: set<int>)
    requires a <= b
    ensures |a| <= |b|
  {
    assert b == a + (b - a);
    assert a * (b - a) == {};
  }

  /** One distinct value means a non-empty constant row. */
  lemma DistinctOne(ds: seq<int>)
    ensures |Distinct(ds)| == 1 <==> ds != [] && forall i :: 0 <= i < |ds| ==> ds[i] == ds[0]
  {
    if ds != [] && forall i :: 0 <= i < |ds| ==> ds[i] == ds[0] {
      assert Distinct(ds) == {ds[0]};
    }
    if |Distinct(ds)| == 1 {
      forall i | 0 <= i < |ds| ensures ds[i] == ds[0] {
        if ds[i] != ds[0] {
          SubsetSize({ds[0], ds[i]}, Distinct(ds));
        }
      }
    }
  }

  /** `get_next_val`; `None` is the `IndexError` of `sequence[-1]` on an
      empty list: at once for an empty history, and one call down, on the
      empty list of differences, for a single value. */
  function NextValue(xs: seq<int>): (r: Option<int>)
    ensures r.Some? <==> |xs| >= 2
    decreases |xs|
  {
    if |xs| == 0 then None
    else
      var ds := Diffs(xs);
      assert |ds| == 1 ==> Distinct(ds) == {ds[0]};
      if |Distinct(ds)| == 1 then Some(xs[|xs| - 1] + ds[0])
      else
        match NextValue(ds)
        case None => None
        case Some(v) => Some(xs[|xs| - 1] + v)
  }

  /** `get_prev_val`. */
  function PrevValue(xs: seq<int>): (r: Option<int>)
    ensures r.Some? <==> |xs| >= 2
    decreases |xs|
  {
    if |xs| == 0 then None
    else
      var ds := Diffs(xs);
      assert |ds| == 1 ==> Distinct(ds) == {ds[0]};
      if |Distinct(ds)| == 1 then Some(xs[0] - ds[0])
      else
        match PrevValue(ds)
        case None => None
        case Some(v) => Some(xs[0] - v)
  }

  predicate AllZero(xs: seq<int>)
  {
    forall i :: 0 <= i < |xs| ==> xs[i] == 0
  }

  /** The puzzle's procedure: descend until a row is all zeros, then add
      each row's last value on the way back up. */
  function Extrapolated(xs: seq<int>): int
    decreases |xs|
  {
    if AllZero(xs) then 0 else xs[|xs| - 1] + Extrapolated(Diffs(xs))
  }

  /** The same, adding at the front going back in time. */
  function Backcast(xs: seq<int>): int
    decreases |xs|
  {
    if AllZero(xs) then 0 else xs[0] - Backcast(Diffs(xs))
  }

  /** A constant row extends by its own value. */
  lemma ConstantRow(ds: seq<int>)
    requires ds != [] && forall i :: 0 <= i < |ds| ==> ds[i] == ds[0]
    ensures Extrapolated(ds) == ds[0] && Backcast(ds) == ds[0]
  {
    var d := Diffs(ds);
    DiffsAt(ds);
    forall i | 0 <= i < |d| ensures d[i] == 0 {
      assert d[i] == ds[i + 1] - ds[i];
    }
  }

  lemma AllZeroDiffs(xs: seq<int>)
    requires AllZero(xs) && |xs| >= 2
    ensures AllZero(Diffs(xs)) && Diffs(xs)[0] == 0
  {
    var d := Diffs(xs);
    DiffsAt(xs);
    forall i | 0 <= i < |d| ensures d[i] == 0 {
      assert d[i] == xs[i + 1] - xs[i];
    }
  }

  /** Stopping at the first constant row gives the puzzle's answer. */
  lemma {:induction false} NextIsExtrapolated(xs: seq<int>)
    requires |xs| >= 2
    ensures NextValue(xs) == Some(Extrapolated(xs))
    decreases |xs|
  {
    var ds := Diffs(xs);
    if AllZero(xs) {
      AllZeroDiffs(xs);
      DistinctOne(ds);
    } else if |Distinct(ds)| == 1 {
      DistinctOne(ds);
      ConstantRow(ds);
    } else {
      DistinctOne(ds);
      NextIsExtrapolated(ds);
    }
  }

  lemma {:induction false} PrevIsBackcast(xs: seq<int>)
    requires |xs| >= 2
    ensures PrevValue(xs) == Some(Backcast(xs))
    decreases |xs|
  {
    var ds := Diffs(xs);
    DistinctOne(ds);
    if AllZero(xs) {
      AllZeroDiffs(xs);
    } else {
      assert Backcast(xs) == xs[0] - Backcast(ds);
      if |Distinct(ds)| == 1 {
        ConstantRow(ds);
      } else {
        PrevIsBackcast(ds);
      }
    }
  }

  function Negate(xs: seq<int>): (r: seq<int>)
    ensures |r| == |xs| && forall i :: 0 <= i < |xs| ==> r[i] == -xs[i]
  {
    if xs == [] then [] else [-xs[0]] + Negate(xs[1..])
  }

  /** Reading a history backwards negates and reverses its differences. */
  lemma {:induction false} DiffsReverse(xs: seq<int>)
    ensures Diffs(Reverse(xs)) == Negate(Reverse(Diffs(xs)))
  {
    if xs != [] {
      var l, r := Diffs(Reverse(xs)), Negate(Reverse(Diffs(xs)));
      forall i | 0 <= i < |xs| - 1 ensures l[i] == r[i] {
        DiffsReversedAt(xs, Reverse(xs), i);
      }
    }
  }

  /** One difference of a reversed history `rev`. */
  lemma DiffsReversedAt(xs: seq<int>, rev: seq<int>, i: nat)
    requires |rev| == |xs| && forall k :: 0 <= k < |xs| ==> rev[k] == xs[|xs| - 1 - k]
    requires i < |xs| - 1
    ensures Diffs(rev)[i] == -Diffs(xs)[|xs| - 2 - i]
  {
    var n := |xs|;
    DiffAt(rev, i);
    DiffAt(xs, n - 2 - i);
    assert rev[i + 1] == xs[n - 2 - i] && rev[i] == xs[n - 1 - i];
  }

  lemma DiffsNegate(xs: seq<int>)
    ensures Diffs(Negate(xs)) == Negate(Diffs(xs))
  {
    DiffsAt(xs);
    DiffsAt(Negate(xs));
  }

  /** Extrapolation commutes with negation. */
  lemma {:induction false} ExtrapolatedNegate(xs: seq<int>)
    ensures Extrapolated(Negate(xs)) == -Extrapolated(xs)
    decreases |xs|
  {
    if !AllZero(xs) {
      DiffsNegate(xs);
      ExtrapolatedNegate(Diffs(xs));
    }
  }

  /** Going back in time is going forward in the reversed history. */
  lemma {:induction false} BackcastIsReversedExtrapolation(xs: seq<int>)
    ensures Backcast(xs) == Extrapolated(Reverse(xs))
    decreases |xs|
  {
    var r := Reverse(xs);
    assert AllZero(r) <==> AllZero(xs) by {
      if AllZero(r) {
        forall i | 0 <= i < |xs| ensures xs[i] == 0 {
          assert xs[i] == r[|xs| - 1 - i];
        }
      }
    }
    if !AllZero(xs) {
      var ds := Diffs(xs);
      DiffsReverse(xs);
      BackcastIsReversedExtrapolation(ds);
      ExtrapolatedNegate(Reverse(ds));
      assert Extrapolated(r) == r[|r| - 1] + Extrapolated(Diffs(r));
      assert r[|r| - 1] == xs[0];
    }
  }

  /** Part two's answer is part one's on the reversed history. */
  lemma PrevIsNextOfReverse(xs: seq<int>)
    ensures PrevValue(xs) == NextValue(Reverse(xs))
  {
    if |xs| >= 2 {
      PrevIsBackcast(xs);
      NextIsExtrapolated(Reverse(xs));
      BackcastIsReversedExtrapolation(xs);
    }
  }

  /** The differences of two values. */
  lemma DiffsTwo(a: int, b: int)
    ensures Diffs([a, b]) == [b - a]
  {
    assert [a, b][1..] == [b];
  }

  /** The differences of three values. */
  lemma DiffsThree(a: int, b: int, c: int)
    ensures Diffs([a, b, c]) == [b - a, c - b]
  {
    assert [a, b, c][1..] == [b, c];
    DiffsTwo(b, c);
  }

  /** The differences of four values. */
  lemma DiffsFour(a: int, b: int, c: int, d: int)
    ensures Diffs([a, b, c, d]) == [b - a, c - b, d - c]
  {
    assert [a, b, c, d][1..] == [b, c, d];
    DiffsThree(b, c, d);
  }

  /** The differences of five values. */
  lemma DiffsFive(a: int, b: int, c: int, d: int, e: int)
    ensures Diffs([a, b, c, d, e]) == [b - a, c - b, d - c, e - d]
  {
    assert [a, b, c, d, e][1..] == [b, c, d, e];
    DiffsFour(b, c, d, e);
  }

  /** The differences of six values. */
  lemma DiffsSix(a: int, b: int, c: int, d: int, e: int, f: int)
    ensures Diffs([a, b, c, d, e, f]) == [b - a, c - b, d - c, e - d, f - e]
  {
    assert [a, b, c, d, e, f][1..] == [b, c, d, e, f];
    DiffsFive(b, c, d, e, f);
  }

  /** The first sample history. */
  lemma SampleArithmetic(xs: seq<int>)
    requires xs == [0, 3, 6, 9, 12, 15]
    ensures NextValue(xs) == Some(18) && PrevValue(xs) == Some(-3)
  {
    NextIsExtrapolated(xs);
    PrevIsBackcast(xs);
    assert xs[1] != 0;
    DiffsSix(0, 3, 6, 9, 12, 15);
    var ds := Diffs(xs);
    assert ds[0] != 0;
    ConstantRow(ds);
  }

  /** The second sample history. */
  lemma SampleTriangular(xs: seq<int>)
    requires xs == [1, 3, 6, 10, 15, 21]
    ensures NextValue(xs) == Some(28) && PrevValue(xs) == Some(0)
  {
    NextIsExtrapolated(xs);
    PrevIsBackcast(xs);
    assert xs[0] != 0;
    DiffsSix(1, 3, 6, 10, 15, 21);
    var ds := Diffs(xs);
    assert ds == [2, 3, 4, 5, 6] && ds[0] != 0;
    DiffsFive(2, 3, 4, 5, 6);
    var dds := Diffs(ds);
    assert dds == [1, 1, 1, 1];
    ConstantRow(dds);
  }

  /** The third sample history. */
  lemma SampleCubic(xs: seq<int>)
    requires xs == [10, 13, 16, 21, 30, 45]
    ensures NextValue(xs) == Some(68) && PrevValue(xs) == Some(5)
  {
    NextIsExtrapolated(xs);
    PrevIsBackcast(xs);
    CubicRows(xs);
    assert xs[0] != 0;
  }

  lemma CubicRows(xs: seq<int>)
    requires xs == [10, 13, 16, 21, 30, 45]
    ensures Diffs(xs) == [3, 3, 5, 9, 15]
    ensures Extrapolated(Diffs(xs)) == 23 && Backcast(Diffs(xs)) == 5
  {
    DiffsSix(10, 13, 16, 21, 30, 45);
    var ds := Diffs(xs);
    assert ds[0] != 0;
    DiffsFive(3, 3, 5, 9, 15);
    var dds := Diffs(ds);
    assert dds == [0, 2, 4, 6] && dds[1] != 0;
    DiffsFour(0, 2, 4, 6);
    var ddds := Diffs(dds);
    assert ddds == [2, 2, 2];
    ConstantRow(ddds);
    assert Extrapolated(dds) == 8 && Backcast(dds) == -2;
  }
}
