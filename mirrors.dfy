/** Day 13: lines of reflection in patterns of ash `.` and rocks `#`
    (D13/d13p1.py), and the search for the one smudged cell whose repair
    gives a different line (D13/d13p2.py). A pattern is a list of rows. */
module Mirrors {

  import opened Wrappers
  import opened Seqs
  import opened Grids

  type Pattern = seq<string>

  /** `are_subsegments_mirrors`: walk the first list and fail at the first
      entry that differs from the second; running past the end of either
      list succeeds. */
  predicate Agree(a: Pattern, b: Pattern)
    decreases |a|
  {
    if a == [] || b == [] then true
    else if a[0] != b[0] then false
    else Agree(a[1..], b[1..])
  }

  /** The loop agrees exactly when the lists match on their common
      prefix. */
  lemma {:induction false} AgreeIsCommonPrefix(a: Pattern, b: Pattern)
    ensures Agree(a, b) <==> forall i :: 0 <= i < |a| && i < |b| ==> a[i] == b[i]
    decreases |a|
  {
    if a != [] && b != [] && a[0] == b[0] {
      AgreeIsCommonPrefix(a[1..], b[1..]);
      if Agree(a, b) {
        forall i | 0 <= i < |a| && i < |b| ensures a[i] == b[i] {
          if i > 0 {
            assert a[i] == a[1..][i - 1] && b[i] == b[1..][i - 1];
          }
        }
      }
      if forall i :: 0 <= i < |a| && i < |b| ==> a[i] == b[i] {
        forall i | 0 <= i < |a| - 1 && i < |b| - 1 ensures a[1..][i] == b[1..][i] {
          assert a[i + 1] == b[i + 1];
        }
      }
    }
  }

  /** A horizontal line of reflection with `n` rows above it: every row
      pairs with the row at the same distance on the other side, as far
      as the pattern reaches on both sides. */
  predicate IsLine(p: Pattern, n: nat)
  {
    1 <= n < |p| && forall t :: 0 <= t < n && n + t < |p| ==> RowsPair(p, n, t)
  }

  /** The rows `t` above and `t` below a line with `n` rows above it are
      equal. */
  predicate RowsPair(p: Pattern, n: nat, t: nat)
    requires t < n && n + t < |p|
  {
    p[n - 1 - t] == p[n + t]
  }

  /** The test `find_mirror_line` makes between rows `i` and `i + 1`. */
  predicate Reflects(p: Pattern, i: nat)
    requires i + 1 < |p|
  {
    p[i] == p[i + 1] && Agree(Reverse(p[..i]), p[i + 2..])
  }

  /** The test succeeds exactly at a line of reflection. */
  lemma ReflectsIsLine(p: Pattern, i: nat)
    requires i + 1 < |p|
    ensures Reflects(p, i) <==> IsLine(p, i + 1)
  {
    var n := i + 1;
    OuterRows(p, n, Reverse(p[..i]));
    assert p[i] == p[i + 1] <==> RowsPair(p, n, 0);
  }

  /** The rows above the two rows next to a line with `n` rows above it,
      nearest first, agree with the rows below them exactly when they pair
      up around the line. */
  lemma OuterRows(p: Pattern, n: nat, above: Pattern)
    requires 1 <= n < |p|
    requires |above| == n - 1 && forall k :: 0 <= k < n - 1 ==> above[k] == p[n - 2 - k]
    ensures Agree(above, p[n + 1..]) <==> forall t :: 0 < t < n && n + t < |p| ==> RowsPair(p, n, t)
  {
    var below := p[n + 1..];
    AgreeIsCommonPrefix(above, below);
    if Agree(above, below) {
      forall t | 0 < t < n && n + t < |p| ensures RowsPair(p, n, t) {
        assert above[t - 1] == below[t - 1];
      }
    }
    if forall t :: 0 < t < n && n + t < |p| ==> RowsPair(p, n, t) {
      forall k | 0 <= k < |above| && k < |below| ensures above[k] == below[k] {
        assert RowsPair(p, n, k + 1);
      }
    }
  }

  /** Whether the value `value` may be returned, given the value of the
      original pattern (`0` for none: `not original_value`). */
  predicate Accepts(original: nat, value: nat)
  {
    original == 0 || value != original
  }

  /** The loop of part two's `get_mirror_value` from row `i` on: the
      number of rows above the first line of reflection whose value, that
      number times `scale`, is accepted. */
  function FindFromExcept(p: Pattern, i: nat, scale: nat, original: nat): Option<nat>
    decreases |p| - i
  {
    if i + 1 >= |p| then None
    else if Reflects(p, i) && Accepts(original, (i + 1) * scale) then Some(i + 1)
    else FindFromExcept(p, i + 1, scale, original)
  }

  /** The result is the first accepted line of reflection past row `i`,
      and `None` means there is none. */
  lemma {:induction false} FindFromExceptSpec(p: Pattern, i: nat, scale: nat, original: nat)
    ensures FindFromExcept(p, i, scale, original).Some? ==>
      var n := FindFromExcept(p, i, scale, original).value;
      && i < n && IsLine(p, n) && Accepts(original, n * scale)
      && forall m: nat :: i < m < n && IsLine(p, m) ==> !Accepts(original, m * scale)
    ensures FindFromExcept(p, i, scale, original).None? <==>
      forall m: nat :: i < m && IsLine(p, m) ==> !Accepts(original, m * scale)
    decreases |p| - i
  {
    if i + 1 < |p| {
      ReflectsIsLine(p, i);
      if !(Reflects(p, i) && Accepts(original, (i + 1) * scale)) {
        FindFromExceptSpec(p, i + 1, scale, original);
      }
    }
  }

  /** Part one's `find_mirror_line` from row `i` on, with `None` for its
      `-1`. */
  function FindFrom(p: Pattern, i: nat): Option<nat>
    decreases |p| - i
  {
    if i + 1 >= |p| then None
    else if Reflects(p, i) then Some(i + 1)
    else FindFrom(p, i + 1)
  }

  /** Part one's search is part two's with no original value. */
  lemma {:induction false} FindFromIsExcept(p: Pattern, i: nat, scale: nat)
    ensures FindFrom(p, i) == FindFromExcept(p, i, scale, 0)
    decreases |p| - i
  {
    if i + 1 < |p| && !Reflects(p, i) {
      FindFromIsExcept(p, i + 1, scale);
    }
  }

  /** `find_mirror_line` finds the line of reflection with the fewest rows
      above it, and fails only when there is none. */
  lemma FindMirrorLine(p: Pattern)
    ensures FindFrom(p, 0).Some? ==>
      var n := FindFrom(p, 0).value;
      IsLine(p, n) && forall m: nat :: m < n ==> !IsLine(p, m)
    ensures FindFrom(p, 0).None? <==> forall m: nat :: !IsLine(p, m)
  {
    FindFromIsExcept(p, 0, 1);
    FindFromExceptSpec(p, 0, 1, 0);
  }

  /** Columns `a` and `b` hold the same cell in every row. */
  predicate SameColumn(p: Pattern, a: nat, b: nat)
    requires a < Width(p) && b < Width(p)
  {
    forall r :: 0 <= r < |p| ==> p[r][a] == p[r][b]
  }

  /** A vertical line of reflection with `n` columns to its left, among
      the columns that `zip(*pattern)` sees. */
  predicate IsColumnLine(p: Pattern, n: nat)
  {
    1 <= n < Width(p) && forall t :: 0 <= t < n && n + t < Width(p) ==> ColumnsPair(p, n, t)
  }

  /** The columns `t` to the left and `t` to the right of a line with `n`
      columns to its left are equal. */
  predicate ColumnsPair(p: Pattern, n: nat, t: nat)
    requires t < n && n + t < Width(p)
  {
    SameColumn(p, n - 1 - t, n + t)
  }

  /** Two rows of the turned pattern are equal exactly when the two
      columns they came from are. */
  lemma TurnedRows(p: Pattern, a: nat, b: nat)
    requires a < Width(p) && b < Width(p)
    ensures Turn(p)[a] == Turn(p)[b] <==> SameColumn(p, a, b)
  {
    var t := Turn(p);
    if t[a] == t[b] {
      forall r | 0 <= r < |p| ensures p[r][a] == p[r][b] {
        assert t[a][|p| - 1 - r] == t[b][|p| - 1 - r];
      }
    }
    if SameColumn(p, a, b) {
      forall k | 0 <= k < |p| ensures t[a][k] == t[b][k] {
        assert p[|p| - 1 - k][a] == p[|p| - 1 - k][b];
      }
    }
  }

  /** `rotate_pattern` turns vertical lines into horizontal ones. */
  lemma TurnedLine(p: Pattern, n: nat)
    ensures IsLine(Turn(p), n) <==> IsColumnLine(p, n)
  {
    var t := Turn(p);
    if 1 <= n < |t| {
      forall k | 0 <= k < n && n + k < |t| ensures RowsPair(t, n, k) <==> ColumnsPair(p, n, k) {
        TurnedRows(p, n - 1 - k, n + k);
      }
    }
  }

  /** Part one's `get_mirror_value`: 100 times the rows above a
      horizontal line, else the columns left of a vertical line; `None`
      where the program exits for want of a line. */
  function MirrorValue(p: Pattern): Option<nat>
  {
    match FindFrom(p, 0)
    case Some(n) => Some(100 * n)
    case None =>
      match FindFrom(Turn(p), 0)
      case Some(n) => Some(n)
      case None => None
  }

  /** The first horizontal line counts; without one, the first vertical
      line; without either, the program stops. */
  lemma MirrorValueSpec(p: Pattern)
    ensures forall n: nat :: IsLine(p, n) && (forall m: nat :: m < n ==> !IsLine(p, m)) ==> MirrorValue(p) == Some(100 * n)
    ensures (forall m: nat :: !IsLine(p, m)) ==>
      forall n: nat :: IsColumnLine(p, n) && (forall m: nat :: m < n ==> !IsColumnLine(p, m)) ==> MirrorValue(p) == Some(n)
    ensures MirrorValue(p).None? <==> (forall m: nat :: !IsLine(p, m)) && forall m: nat :: !IsColumnLine(p, m)
  {
    FindMirrorLine(p);
    FindMirrorLine(Turn(p));
    forall m: nat ensures IsLine(Turn(p), m) <==> IsColumnLine(p, m) {
      TurnedLine(p, m);
    }
  }

  /** Part two's `get_mirror_value(pattern, original_value)`: horizontal
      lines first, then vertical ones, skipping any whose value equals the
      original; `0` when no line is left. */
  function MirrorValueExcept(p: Pattern, original: nat): nat
  {
    match FindFromExcept(p, 0, 100, original)
    case Some(n) => 100 * n
    case None =>
      match FindFromExcept(Turn(p), 0, 1, original)
      case Some(n) => n
      case None => 0
  }

  /** Without an original value, part two's scoring is part one's, with
      `0` where part one exits. */
  lemma ExceptWithoutOriginal(p: Pattern)
    ensures MirrorValueExcept(p, 0) == match MirrorValue(p) case Some(v) => v case None => 0
  {
    FindFromIsExcept(p, 0, 100);
    FindFromIsExcept(Turn(p), 0, 1);
  }

  /** The value found is accepted, it is 0 exactly when no line of either
      kind is accepted, and otherwise it comes from a line of reflection. */
  lemma MirrorValueExceptSpec(p: Pattern, original: nat)
    ensures var v := MirrorValueExcept(p, original);
      && (v != 0 ==> Accepts(original, v))
      && (v == 0 <==>
            && (forall m: nat :: IsLine(p, m) ==> !Accepts(original, 100 * m))
            && (forall m: nat :: IsColumnLine(p, m) ==> !Accepts(original, m)))
      && (v != 0 ==> exists m: nat :: (IsLine(p, m) && v == 100 * m) || (IsColumnLine(p, m) && v == m))
  {
    FindFromExceptSpec(p, 0, 100, original);
    FindFromExceptSpec(Turn(p), 0, 1, original);
    forall m: nat ensures IsLine(Turn(p), m) <==> IsColumnLine(p, m) {
      TurnedLine(p, m);
    }
    var h := FindFromExcept(p, 0, 100, original);
    if h.None? {
      var c := FindFromExcept(Turn(p), 0, 1, original);
      if c.Some? {
        assert c.value * 1 == c.value;
      }
    }
  }

  /** A new value is never the original one. */
  lemma ExceptSkipsOriginal(p: Pattern, original: nat)
    requires original != 0
    ensures MirrorValueExcept(p, original) != original
  {
    MirrorValueExceptSpec(p, original);
  }

  /** `'#' if char == '.' else '.'`. */
  function Flipped(c: char): (f: char)
    ensures f != c && (f == '#' <==> c == '.')
  {
    if c == '.' then '#' else '.'
  }

  /** The pattern with the cell in row `i`, column `j` flipped. */
  function Flip(p: Pattern, i: nat, j: nat): (q: Pattern)
    requires i < |p| && j < |p[i]|
    ensures |q| == |p| && forall r :: 0 <= r < |p| ==> |q[r]| == |p[r]|
    ensures forall r :: 0 <= r < |p| && r != i ==> q[r] == p[r]
    ensures q[i][j] == Flipped(p[i][j]) && q[i][j] != p[i][j]
    ensures forall r, c :: 0 <= r < |p| && 0 <= c < |p[r]| && (r != i || c != j) ==> q[r][c] == p[r][c]
  {
    var row := p[i][..j] + [Flipped(p[i][j])] + p[i][j + 1..];
    p[..i] + [row] + p[i + 1..]
  }

  /** Flipping the cell in row `i`, column `j` yields a line of reflection
      with a new, nonzero value. */
  predicate Repairs(p: Pattern, original: nat, i: nat, j: nat)
    requires i < |p| && j < |p[i]|
  {
    var v := MirrorValueExcept(Flip(p, i, j), original);
    v != original && v != 0
  }

  /** Row-major order of cells. */
  predicate Before(r: nat, c: nat, i: nat, j: nat)
  {
    r < i || (r == i && c < j)
  }

  /** The loops of `get_smudge_value` from row `i`, column `j` on: the
      value of the first flip that repairs the pattern, `None` where the
      program exits. */
  function SmudgeFrom(p: Pattern, original: nat, i: nat, j: nat): Option<nat>
    requires i <= |p| && (i < |p| ==> j <= |p[i]|)
    decreases |p| - i, if i < |p| then |p[i]| - j else 0
  {
    if i == |p| then None
    else if j == |p[i]| then SmudgeFrom(p, original, i + 1, 0)
    else
      var v := MirrorValueExcept(Flip(p, i, j), original);
      if v != original && v != 0 then Some(v) else SmudgeFrom(p, original, i, j + 1)
  }

  /** When the search succeeds, it names the first cell, in row-major
      order from row `i`, column `j`, whose flip repairs the pattern. */
  lemma {:induction false} SmudgeFound(p: Pattern, original: nat, i: nat, j: nat) returns (a: nat, b: nat)
    requires i <= |p| && (i < |p| ==> j <= |p[i]|)
    requires SmudgeFrom(p, original, i, j).Some?
    ensures a < |p| && b < |p[a]| && !Before(a, b, i, j) && Repairs(p, original, a, b)
    ensures SmudgeFrom(p, original, i, j).value == MirrorValueExcept(Flip(p, a, b), original)
    ensures forall r, c :: 0 <= r < |p| && 0 <= c < |p[r]| && !Before(r, c, i, j) && Before(r, c, a, b) ==> !Repairs(p, original, r, c)
    decreases |p| - i, if i < |p| then |p[i]| - j else 0
  {
    if j == |p[i]| {
      a, b := SmudgeFound(p, original, i + 1, 0);
    } else if Repairs(p, original, i, j) {
      a, b := i, j;
    } else {
      a, b := SmudgeFound(p, original, i, j + 1);
    }
  }

  /** The search fails exactly when no cell from row `i`, column `j` on
      repairs the pattern. */
  lemma {:induction false} SmudgeNone(p: Pattern, original: nat, i: nat, j: nat)
    requires i <= |p| && (i < |p| ==> j <= |p[i]|)
    ensures SmudgeFrom(p, original, i, j).None? <==>
      forall r, c :: 0 <= r < |p| && 0 <= c < |p[r]| && !Before(r, c, i, j) ==> !Repairs(p, original, r, c)
    decreases |p| - i, if i < |p| then |p[i]| - j else 0
  {
    if i < |p| {
      if j == |p[i]| {
        SmudgeNone(p, original, i + 1, 0);
      } else if !Repairs(p, original, i, j) {
        SmudgeNone(p, original, i, j + 1);
      }
    }
  }

  /** `get_smudge_value`: the original value is the pattern's own,
      with `0` for none. */
  function SmudgeValue(p: Pattern): Option<nat>
  {
    SmudgeFrom(p, MirrorValueExcept(p, 0), 0, 0)
  }

  /** The smudge value is that of the first cell, in row-major order,
      whose flip gives a nonzero value other than the pattern's own; the
      program exits only when no cell does. */
  lemma SmudgeValueSpec(p: Pattern)
    ensures SmudgeValue(p).Some? ==> exists a, b ::
      && 0 <= a < |p| && 0 <= b < |p[a]| && Repairs(p, MirrorValueExcept(p, 0), a, b)
      && SmudgeValue(p).value == MirrorValueExcept(Flip(p, a, b), MirrorValueExcept(p, 0))
      && forall r, c :: 0 <= r < |p| && 0 <= c < |p[r]| && Before(r, c, a, b) ==> !Repairs(p, MirrorValueExcept(p, 0), r, c)
    ensures SmudgeValue(p).None? <==>
      forall r, c :: 0 <= r < |p| && 0 <= c < |p[r]| ==> !Repairs(p, MirrorValueExcept(p, 0), r, c)
  {
    var original := MirrorValueExcept(p, 0);
    if SmudgeValue(p).Some? {
      var a, b := SmudgeFound(p, original, 0, 0);
    }
    SmudgeNone(p, original, 0, 0);
  }

  /** The two sample patterns of the puzzle. */
  const SampleA: Pattern := ["#.##..##.", "..#.##.#.", "##......#", "##......#", "..#.##.#.", "..##..##.", "#.#.##.#."]
  const SampleB: Pattern := ["#...##..#", "#....#..#", "..##..###", "#####.##.", "#####.##.", "..##..###", "#....#..#"]

  lemma SampleAHasNoRowLine()
    ensures forall m: nat :: !IsLine(SampleA, m)
  {
    var p := SampleA;
    forall m: nat ensures !IsLine(p, m) {
      if 1 <= m < 7 && m != 3 {
        assert !RowsPair(p, m, 0);
      } else if m == 3 {
        assert !RowsPair(p, 3, 2);
      }
    }
  }

  lemma SampleAColumnLine()
    ensures IsColumnLine(SampleA, 5) && forall m: nat :: m < 5 ==> !IsColumnLine(SampleA, m)
  {
    SampleAColumnsPair(SampleA);
    SampleANoEarlierColumn();
  }

  lemma SampleAColumnsPair(p: Pattern)
    requires p == SampleA
    ensures IsColumnLine(p, 5)
  {
    WidthRect(p, 9);
    forall t | 0 <= t < 4 ensures ColumnsPair(p, 5, t) {
      assert forall r :: 0 <= r < 7 ==> p[r][4 - t] == p[r][5 + t];
    }
  }

  lemma SampleANoEarlierColumn()
    ensures forall m: nat :: m < 5 ==> !IsColumnLine(SampleA, m)
  {
    var p := SampleA;
    WidthRect(p, 9);
    forall m: nat | m < 5 ensures !IsColumnLine(p, m) {
      if 1 <= m {
        if m == 3 {
          assert p[1][2] != p[1][3];
        } else {
          assert p[0][m - 1] != p[0][m];
        }
        assert !ColumnsPair(p, m, 0);
      }
    }
  }

  lemma SampleBRowLine()
    ensures IsLine(SampleB, 4) && forall m: nat :: m < 4 ==> !IsLine(SampleB, m)
  {
    var q := SampleB;
    assert RowsPair(q, 4, 0) && RowsPair(q, 4, 1) && RowsPair(q, 4, 2);
    forall m: nat | m < 4 ensures !IsLine(q, m) {
      if 1 <= m {
        assert !RowsPair(q, m, 0);
      }
    }
  }

  /** Part one on the sample: a vertical line with five columns to its
      left and a horizontal line with four rows above it, 405 in all. */
  lemma SamplePartOne()
    ensures MirrorValue(SampleA) == Some(5) && MirrorValue(SampleB) == Some(400)
  {
    MirrorValueSpec(SampleA);
    SampleAHasNoRowLine();
    SampleAColumnLine();
    MirrorValueSpec(SampleB);
    SampleBRowLine();
  }

  /** A pattern that agrees with sample B below its first row keeps the
      line with four rows above it, gains at most the line with one row
      above it, and has no vertical line. */
  lemma LikeSampleB(f: Pattern)
    requires |f| == 7 && |f[0]| == 9 && forall r :: 1 <= r < 7 ==> f[r] == SampleB[r]
    ensures IsLine(f, 4) && (IsLine(f, 1) <==> f[0] == f[1])
    ensures forall m: nat :: IsLine(f, m) ==> m == 1 || m == 4
    ensures forall m: nat :: !IsColumnLine(f, m)
  {
    assert RowsPair(f, 4, 0) && RowsPair(f, 4, 1) && RowsPair(f, 4, 2);
    assert IsLine(f, 1) <==> RowsPair(f, 1, 0);
    forall m: nat | m != 1 && m != 4 ensures !IsLine(f, m) {
      if 2 <= m < 7 {
        assert !RowsPair(f, m, 0);
      }
    }
    WidthRect(f, 9);
    forall m: nat ensures !IsColumnLine(f, m) {
      if m == 3 {
        assert f[3][0] != f[3][5];
        assert !ColumnsPair(f, 3, 2);
      } else if m == 7 {
        assert f[2][5] != f[2][8];
        assert !ColumnsPair(f, 7, 1);
      } else if 1 <= m < 9 {
        if m == 2 || m == 4 {
          assert f[2][m - 1] != f[2][m];
        } else {
          assert f[1][m - 1] != f[1][m];
        }
        assert !ColumnsPair(f, m, 0);
      }
    }
  }

  /** Flipping one of the first four cells of sample B leaves only the
      original line, so nothing new is found. */
  lemma SampleBEarlyFlips(c: nat)
    requires c < 4
    ensures MirrorValueExcept(Flip(SampleB, 0, c), 400) == 0
  {
    var f := Flip(SampleB, 0, c);
    LikeSampleB(f);
    assert f[0][4] != f[1][4];
    MirrorValueExceptSpec(f, 400);
  }

  /** Flipping the fifth cell of sample B's first row makes its first two
      rows equal: a new line with one row above it. */
  lemma SampleBSmudge()
    ensures MirrorValueExcept(Flip(SampleB, 0, 4), 400) == 100
  {
    var f := Flip(SampleB, 0, 4);
    LikeSampleB(f);
    assert f[0] == f[1];
    FindFromExceptSpec(f, 0, 100, 400);
  }

  /** Flipping the top-left cell of sample A gives a horizontal line with
      three rows above it. */
  lemma SampleASmudge()
    ensures MirrorValueExcept(Flip(SampleA, 0, 0), 5) == 300
  {
    var p := SampleA;
    var f := Flip(p, 0, 0);
    assert |p[0]| == 9;
    forall c | 0 <= c < 9 ensures f[0][c] == p[5][c] {
      if c == 0 {
        assert f[0][0] == Flipped(p[0][0]);
      } else {
        assert f[0][c] == p[0][c];
      }
    }
    SmudgedSampleA(f);
  }

  /** Sample A with its first row replaced by its sixth: the first
      horizontal line has three rows above it. */
  lemma SmudgedSampleA(f: Pattern)
    requires |f| == 7 && f[0] == SampleA[5] && forall r :: 1 <= r < 7 ==> f[r] == SampleA[r]
    ensures MirrorValueExcept(f, 5) == 300
  {
    assert f[0][3] != f[1][3] && f[1][0] != f[2][0];
    assert !RowsPair(f, 1, 0) && !RowsPair(f, 2, 0);
    assert RowsPair(f, 3, 0) && RowsPair(f, 3, 1) && RowsPair(f, 3, 2);
    assert IsLine(f, 3);
    assert !IsLine(f, 1) && !IsLine(f, 2);
    FindFromExceptSpec(f, 0, 100, 5);
    assert Accepts(5, 3 * 100);
    assert FindFromExcept(f, 0, 100, 5) == Some(3);
  }

  /** Part two on the sample: the new lines have three and one rows above
      them, 400 in all. */
  lemma SamplePartTwo()
    ensures SmudgeValue(SampleA) == Some(300) && SmudgeValue(SampleB) == Some(100)
  {
    SamplePartOne();
    ExceptWithoutOriginal(SampleA);
    ExceptWithoutOriginal(SampleB);
    SampleASmudge();
    SampleBSmudge();
    SampleBEarlyFlips(0);
    SampleBEarlyFlips(1);
    SampleBEarlyFlips(2);
    SampleBEarlyFlips(3);
    assert SmudgeFrom(SampleB, 400, 0, 4) == Some(100);
    assert SmudgeFrom(SampleB, 400, 0, 3) == Some(100);
    assert SmudgeFrom(SampleB, 400, 0, 2) == Some(100);
    assert SmudgeFrom(SampleB, 400, 0, 1) == Some(100);
  }
}
