/** Day 14 (D14/d14p1.py, D14/d14p2.py): round rocks `O` roll across a
    platform of cube rocks `#` and empty cells `.`. Every roll turns the
    platform so that the rocks roll toward the end of each row, rolls the
    rows, and (in part two) turns it back. */
module Rocks {

  import opened Wrappers
  import opened Text
  import Cycles
  import opened Grids

  // ---------------------------------------------------------------
  // Rolling one row (the body of `roll_rocks`)
  // ---------------------------------------------------------------

  /** The cells a rolling rock stops in front of. */
  predicate Blocks(c: char)
  {
    c == '#' || c == 'O'
  }

  /** The first index at or after `k` that blocks, or the row length. */
  function Stop(row: seq<char>, k: nat): (s: nat)
    requires k <= |row|
    ensures k <= s <= |row|
    ensures s < |row| ==> Blocks(row[s])
    ensures forall j :: k <= j < s ==> !Blocks(row[j])
    decreases |row| - k
  {
    if k == |row| then k else if Blocks(row[k]) then k else Stop(row, k + 1)
  }

  /** One column of the scan: a cell other than `#` and `.` rolls to the
      cell before the next blocking cell, or to the row end, and leaves
      `.` behind. */
  function RollAt(row: seq<char>, c: nat): (r: seq<char>)
    requires c + 1 < |row|
    ensures |r| == |row|
  {
    if row[c] == '#' || row[c] == '.' then row
    else
      var dest := Stop(row, c + 1) - 1;
      if dest > c then row[c := '.'][dest := 'O'] else row
  }

  /** Columns `n - 1` down to 0, in that order. */
  function RollCols(row: seq<char>, n: nat): (r: seq<char>)
    requires n < |row|
    ensures |r| == |row|
    decreases n
  {
    if n == 0 then row else RollCols(RollAt(row, n - 1), n - 1)
  }

  /** The scan of a whole row, from the second-to-last column down to the
      first. */
  function Roll(row: seq<char>): (r: seq<char>)
    ensures |r| == |row|
  {
    if |row| < 2 then row else RollCols(row, |row| - 1)
  }

  /** The row loop of `roll_rocks`, on a row held in place. */
  method RollRow(a: array<char>)
    modifies a
    ensures a[..] == Roll(old(a[..]))
  {
    if a.Length < 2 {
      return;
    }
    var col := a.Length - 1;
    while col > 0
      invariant 0 <= col < a.Length
      invariant Roll(old(a[..])) == RollCols(a[..], col)
    {
      col := col - 1;
      RollColumn(a, col);
    }
  }

  /** One pass of the row loop: the rock in column `col`, if any, rolls. */
  method RollColumn(a: array<char>, col: nat)
    requires col + 1 < a.Length
    modifies a
    ensures a[..] == RollAt(old(a[..]), col)
  {
    if a[col] == '#' || a[col] == '.' {
      return;
    }
    var dest, spaces := Destination(a, col);
    if spaces > 0 {
      a[col] := '.';
      a[dest] := 'O';
    }
  }

  /** The inner scan of `roll_rocks`: how far the rock in column `col`
      rolls and where it stops. */
  method Destination(a: array<char>, col: nat) returns (dest: nat, spaces: nat)
    requires col + 1 < a.Length
    ensures dest == Stop(a[..], col + 1) - 1 && spaces == dest - col
  {
    spaces := 0;
    dest := col;
    var k := col + 1;
    while true
      invariant col + 1 <= k < a.Length
      invariant spaces == k - col - 1
      invariant Stop(a[..], col + 1) == Stop(a[..], k)
      decreases a.Length - k
    {
      if a[k] == '#' || a[k] == 'O' {
        dest := k - 1;
        break;
      }
      if k == a.Length - 1 {
        dest := k;
        spaces := spaces + 1;
        break;
      }
      spaces := spaces + 1;
      k := k + 1;
    }
  }

  // ---------------------------------------------------------------
  // What a roll keeps and what it achieves
  // ---------------------------------------------------------------

  /** A cell the puzzle's platform holds. */
  predicate Cell(c: char)
  {
    c == '#' || c == '.' || c == 'O'
  }

  predicate Cells(row: seq<char>)
  {
    forall i :: 0 <= i < |row| ==> Cell(row[i])
  }

  /** Where a segment between cube rocks ends: a `#` or the row end. */
  predicate Boundary(row: seq<char>, w: nat)
  {
    w == |row| || (w < |row| && row[w] == '#')
  }

  /** No round rock in `row[from..]` has an empty cell right after it. */
  predicate SettledFrom(row: seq<char>, from: nat)
  {
    forall i :: from <= i < |row| - 1 && row[i] == 'O' ==> row[i + 1] != '.'
  }

  lemma RollAtKeepsWalls(row: seq<char>, c: nat)
    requires c + 1 < |row|
    ensures forall i :: 0 <= i < |row| ==> (RollAt(row, c)[i] == '#' <==> row[i] == '#')
  {
  }

  lemma RollAtKeepsBoundary(row: seq<char>, c: nat, w: nat)
    requires c + 1 < |row| && Boundary(row, w)
    ensures Boundary(RollAt(row, c), w)
  {
    RollAtKeepsWalls(row, c);
  }

  lemma RollAtKeepsCells(row: seq<char>, c: nat)
    requires c + 1 < |row| && Cells(row)
    ensures Cells(RollAt(row, c))
  {
  }

  /** A rock rolls only within its segment: every prefix that ends at a
      boundary keeps its cells. */
  lemma RollAtKeepsSegments(row: seq<char>, c: nat, w: nat)
    requires c + 1 < |row| && Cells(row) && Boundary(row, w)
    ensures multiset(RollAt(row, c)[..w]) == multiset(row[..w])
  {
    if row[c] != '#' && row[c] != '.' {
      var dest := Stop(row, c + 1) - 1;
      if dest > c {
        var r := RollAt(row, c);
        assert row[c] == 'O' && row[dest] == '.';
        if w <= c {
          assert r[..w] == row[..w];
        } else {
          assert w > dest;
          assert r[..w] == row[..w][c := '.'][dest := 'O'];
        }
      }
    }
  }

  /** One more column keeps the scanned suffix settled. */
  lemma RollAtSettles(row: seq<char>, c: nat)
    requires c + 1 < |row| && Cells(row) && SettledFrom(row, c + 1)
    ensures SettledFrom(RollAt(row, c), c)
  {
    var r := RollAt(row, c);
    if row[c] != '#' && row[c] != '.' {
      var s := Stop(row, c + 1);
      if s - 1 > c {
        assert forall i :: c < i < s - 1 ==> Cell(row[i]) && !Blocks(row[i]);
      }
    }
  }

  lemma {:induction false} RollColsKeepsCells(row: seq<char>, n: nat)
    requires n < |row| && Cells(row)
    ensures Cells(RollCols(row, n))
    decreases n
  {
    if n > 0 {
      RollAtKeepsCells(row, n - 1);
      RollColsKeepsCells(RollAt(row, n - 1), n - 1);
    }
  }

  lemma {:induction false} RollColsKeepsWalls(row: seq<char>, n: nat)
    requires n < |row|
    ensures forall i :: 0 <= i < |row| ==> (RollCols(row, n)[i] == '#' <==> row[i] == '#')
    decreases n
  {
    if n > 0 {
      RollAtKeepsWalls(row, n - 1);
      RollColsKeepsWalls(RollAt(row, n - 1), n - 1);
    }
  }

  lemma {:induction false} RollColsKeepsSegments(row: seq<char>, n: nat, w: nat)
    requires n < |row| && Cells(row) && Boundary(row, w)
    ensures multiset(RollCols(row, n)[..w]) == multiset(row[..w])
    decreases n
  {
    if n > 0 {
      var next := RollAt(row, n - 1);
      RollAtKeepsBoundary(row, n - 1, w);
      RollAtKeepsCells(row, n - 1);
      RollAtKeepsSegments(row, n - 1, w);
      RollColsKeepsSegments(next, n - 1, w);
    }
  }

  lemma {:induction false} RollColsSettles(row: seq<char>, n: nat)
    requires n < |row| && Cells(row) && SettledFrom(row, n)
    ensures SettledFrom(RollCols(row, n), 0)
    decreases n
  {
    if n > 0 {
      RollAtSettles(row, n - 1);
      RollAtKeepsCells(row, n - 1);
      RollColsSettles(RollAt(row, n - 1), n - 1);
    }
  }

  /** Rolling a row of the platform: cube rocks stay where they are, each
      segment between them keeps its rocks, and afterwards every round
      rock rests against a cube rock, another round rock or the row end.
      Together these fix the rolled row. */
  lemma RollSpec(row: seq<char>)
    requires Cells(row)
    ensures Cells(Roll(row))
    ensures forall i :: 0 <= i < |row| ==> (Roll(row)[i] == '#' <==> row[i] == '#')
    ensures forall w: nat :: Boundary(row, w) ==> multiset(Roll(row)[..w]) == multiset(row[..w])
    ensures SettledFrom(Roll(row), 0)
  {
    if |row| >= 2 {
      forall w: nat | Boundary(row, w) ensures multiset(Roll(row)[..w]) == multiset(row[..w]) {
        RollColsKeepsSegments(row, |row| - 1, w);
      }
      RollColsKeepsWalls(row, |row| - 1);
      RollColsKeepsCells(row, |row| - 1);
      RollColsSettles(row, |row| - 1);
    }
  }

  // ---------------------------------------------------------------
  // Turning the platform (`rotate_rocks`)
  // ---------------------------------------------------------------

  /** `rotate_rocks`: `n` quarter turns. */
  function Turns(g: Grid, n: nat): Grid
    decreases n
  {
    if n == 0 then g else Turns(Turn(g), n - 1)
  }

  lemma {:induction false} TurnsAdd(g: Grid, a: nat, b: nat)
    ensures Turns(g, a + b) == Turns(Turns(g, a), b)
    decreases a
  {
    if a > 0 {
      TurnsAdd(Turn(g), a - 1, b);
    }
  }

  /** A platform of `h` rows of `w` cells, each of them `#`, `.` or `O`. */
  predicate Platform(g: Grid, h: nat, w: nat)
  {
    |g| == h && h >= 1 && w >= 1 && Rect(g, w) && forall r :: 0 <= r < h ==> Cells(g[r])
  }

  /** A turn swaps the platform's sides and keeps it a platform. */
  lemma TurnPlatform(g: Grid, h: nat, w: nat)
    requires Platform(g, h, w)
    ensures Turn(g) == TurnW(g, w)
    ensures Platform(Turn(g), w, h)
  {
    WidthRect(g, w);
    var t := Turn(g);
    forall i | 0 <= i < w ensures Cells(t[i]) {
      forall k | 0 <= k < h ensures Cell(t[i][k]) {
        assert t[i][k] == g[h - 1 - k][i];
        assert Cells(g[h - 1 - k]);
      }
    }
  }

  /** A half turn reverses both the rows and the columns. */
  lemma HalfTurn(g: Grid, h: nat, w: nat)
    requires Platform(g, h, w)
    ensures Platform(Turns(g, 2), h, w)
    ensures forall i, k :: 0 <= i < h && 0 <= k < w ==> Turns(g, 2)[i][k] == g[h - 1 - i][w - 1 - k]
  {
    TurnPlatform(g, h, w);
    TurnPlatform(Turn(g), w, h);
    assert Turns(g, 2) == Turns(Turn(g), 1) == Turns(Turn(Turn(g)), 0);
  }

  /** Four quarter turns restore a platform, so `roll_rocks` turning back
      by `4 - rotations` restores the orientation. */
  lemma TurnFour(g: Grid, h: nat, w: nat)
    requires Platform(g, h, w)
    ensures Turns(g, 4) == g
  {
    HalfTurn(g, h, w);
    HalfTurn(Turns(g, 2), h, w);
    TurnsAdd(g, 2, 2);
    var t := Turns(g, 4);
    assert |t| == |g|;
    forall i | 0 <= i < h ensures t[i] == g[i] {
      assert |t[i]| == |g[i]|;
    }
  }

  lemma {:induction false} TurnsPlatform(g: Grid, h: nat, w: nat, n: nat)
    requires Platform(g, h, w)
    ensures n % 2 == 0 ==> Platform(Turns(g, n), h, w)
    ensures n % 2 == 1 ==> Platform(Turns(g, n), w, h)
    decreases n
  {
    if n > 0 {
      TurnPlatform(g, h, w);
      TurnsPlatform(Turn(g), w, h, n - 1);
    }
  }

  // ---------------------------------------------------------------
  // Rolling the platform
  // ---------------------------------------------------------------

  /** The row loop of `roll_rocks` over the turned platform; `None` is the
      `IndexError` of `rotated_rocks[0]` when there is no row. Every row of
      a turned platform has the same length, which is the `width` the
      source takes from the first row. */
  function RollGrid(t: Grid): (r: Option<Grid>)
    ensures r.Some? <==> t != []
    ensures r.Some? ==> |r.value| == |t| && forall i :: 0 <= i < |t| ==> r.value[i] == Roll(t[i])
  {
    if t == [] then None else Some(seq(|t|, i requires 0 <= i < |t| => Roll(t[i])))
  }

  /** The rows of `roll_rocks`, each rolled in place. */
  method RollRotated(t: Grid) returns (r: Option<Grid>)
    ensures r == RollGrid(t)
  {
    if t == [] {
      return None;
    }
    var rolled: Grid := [];
    for i := 0 to |t|
      invariant |rolled| == i && forall j :: 0 <= j < i ==> rolled[j] == Roll(t[j])
    {
      var a := new char[|t[i]|](j requires 0 <= j < |t[i]| => t[i][j]);
      assert a[..] == t[i];
      RollRow(a);
      rolled := rolled + [a[..]];
    }
    assert rolled == RollGrid(t).value;
    r := Some(rolled);
  }

  /** Rolling keeps a platform's shape and cube rocks, and keeps each row's
      rocks within its segments. */
  lemma RollGridPlatform(t: Grid, h: nat, w: nat)
    requires Platform(t, h, w)
    ensures RollGrid(t).Some? && Platform(RollGrid(t).value, h, w)
    ensures SameWalls(RollGrid(t).value, t)
    ensures forall r :: 0 <= r < h ==> multiset(RollGrid(t).value[r]) == multiset(t[r])
  {
    var rolled := RollGrid(t).value;
    forall r | 0 <= r < h
      ensures Cells(rolled[r]) && multiset(rolled[r]) == multiset(t[r])
      ensures forall k :: 0 <= k < w ==> (rolled[r][k] == '#' <==> t[r][k] == '#')
    {
      RollSpec(t[r]);
      assert Boundary(t[r], |t[r]|);
      assert rolled[r][..w] == rolled[r] && t[r][..w] == t[r];
    }
  }

  /** Two platforms of one shape have their cube rocks in the same cells. */
  predicate SameWalls(a: Grid, b: Grid)
  {
    |a| == |b|
    && (forall r :: 0 <= r < |a| ==> |a[r]| == |b[r]|)
    && forall r, k :: 0 <= r < |a| && 0 <= k < |a[r]| ==> (a[r][k] == '#' <==> b[r][k] == '#')
  }

  lemma TurnSameWalls(a: Grid, b: Grid, h: nat, w: nat)
    requires Platform(a, h, w) && Platform(b, h, w) && SameWalls(a, b)
    ensures SameWalls(Turn(a), Turn(b))
  {
    TurnPlatform(a, h, w);
    TurnPlatform(b, h, w);
    forall i, k | 0 <= i < w && 0 <= k < h ensures (Turn(a)[i][k] == '#' <==> Turn(b)[i][k] == '#') {
      assert Turn(a)[i][k] == a[h - 1 - k][i] && Turn(b)[i][k] == b[h - 1 - k][i];
    }
  }

  lemma {:induction false} TurnsSameWalls(a: Grid, b: Grid, h: nat, w: nat, n: nat)
    requires Platform(a, h, w) && Platform(b, h, w) && SameWalls(a, b)
    ensures SameWalls(Turns(a, n), Turns(b, n))
    decreases n
  {
    if n > 0 {
      TurnSameWalls(a, b, h, w);
      TurnPlatform(a, h, w);
      TurnPlatform(b, h, w);
      TurnsSameWalls(Turn(a), Turn(b), w, h, n - 1);
    }
  }

  /** Part one's `roll_rocks`: only `N` is handled, and any other direction
      leaves `rotations` unbound (`None`). The result stays turned, with
      north at the end of each row. */
  function RollNorth(g: Grid, direction: char): Option<Grid>
  {
    if direction != 'N' then None else RollGrid(Turns(g, 1))
  }

  /** Part two's quarter turns per direction: N 1, E 0, S 3, W 2; another
      direction is a `KeyError` (`None`). */
  function Rotations(direction: char): (n: Option<nat>)
    ensures n.Some? <==> direction in "NESW"
    ensures n.Some? ==> n.value < 4
  {
    match direction
    case 'N' => Some(1)
    case 'E' => Some(0)
    case 'S' => Some(3)
    case 'W' => Some(2)
    case _ => None
  }

  /** Part two's `roll_rocks`: turn, roll, and turn back. */
  function RollToward(g: Grid, direction: char): Option<Grid>
  {
    match Rotations(direction)
    case None => None
    case Some(n) =>
      match RollGrid(Turns(g, n))
      case None => None
      case Some(rolled) => Some(Turns(rolled, 4 - n))
  }

  /** Rolling a platform in any of the four directions gives a platform of
      the same shape with the cube rocks where they were and as many round
      rocks as before. */
  lemma RollTowardPlatform(g: Grid, h: nat, w: nat, direction: char)
    requires Platform(g, h, w) && direction in "NESW"
    ensures RollToward(g, direction).Some?
    ensures Platform(RollToward(g, direction).value, h, w)
    ensures SameWalls(RollToward(g, direction).value, g)
    ensures GridCount(RollToward(g, direction).value) == GridCount(g)
  {
    var n := Rotations(direction).value;
    if n % 2 == 0 {
      RollTurned(g, h, w, n, h, w);
    } else {
      RollTurned(g, h, w, n, w, h);
    }
  }

  /** Turning `n` times, rolling, and turning `4 - n` times more. */
  lemma RollTurned(g: Grid, h: nat, w: nat, n: nat, th: nat, tw: nat)
    requires Platform(g, h, w) && n <= 4
    requires n % 2 == 0 ==> th == h && tw == w
    requires n % 2 == 1 ==> th == w && tw == h
    ensures RollGrid(Turns(g, n)).Some?
    ensures var back := Turns(RollGrid(Turns(g, n)).value, 4 - n);
      Platform(back, h, w) && SameWalls(back, g) && GridCount(back) == GridCount(g)
  {
    var t := Turns(g, n);
    TurnsPlatform(g, h, w, n);
    RollGridPlatform(t, th, tw);
    RollGridCount(t, th, tw);
    var rolled := RollGrid(t).value;
    TurnsPlatform(rolled, th, tw, 4 - n);
    TurnsSameWalls(rolled, t, th, tw, 4 - n);
    TurnsAdd(g, n, 4 - n);
    TurnFour(g, h, w);
    TurnsCount(g, h, w, n);
    TurnsCount(rolled, th, tw, 4 - n);
  }

  /** `roll_rocks_one_cycle`: north, west, south, east. */
  function Spin(g: Grid): Option<Grid>
  {
    match RollToward(g, 'N')
    case None => None
    case Some(a) =>
      match RollToward(a, 'W')
      case None => None
      case Some(b) =>
        match RollToward(b, 'S')
        case None => None
        case Some(c) => RollToward(c, 'E')
  }

  lemma SpinPlatform(g: Grid, h: nat, w: nat)
    requires Platform(g, h, w)
    ensures Spin(g).Some? && Platform(Spin(g).value, h, w)
    ensures SameWalls(Spin(g).value, g) && GridCount(Spin(g).value) == GridCount(g)
  {
    RollTowardPlatform(g, h, w, 'N');
    var a := RollToward(g, 'N').value;
    RollTowardPlatform(a, h, w, 'W');
    var b := RollToward(a, 'W').value;
    RollTowardPlatform(b, h, w, 'S');
    var c := RollToward(b, 'S').value;
    RollTowardPlatform(c, h, w, 'E');
  }

  // ---------------------------------------------------------------
  // Counting round rocks and their load
  // ---------------------------------------------------------------

  function GridCount(g: Grid): nat
  {
    if g == [] then 0 else Occurrences(g[0], 'O') + GridCount(g[1..])
  }

  /** Part one's `compute_load` for one turned row: a rock in column `c`
      weighs `c + 1`. */
  function RowLoad(row: seq<char>): nat
  {
    if row == [] then 0
    else RowLoad(row[..|row| - 1]) + (if row[|row| - 1] == 'O' then |row| else 0)
  }

  /** Part one's `compute_load` over the turned platform. */
  function EastLoad(g: Grid): nat
  {
    if g == [] then 0 else RowLoad(g[0]) + EastLoad(g[1..])
  }

  /** Part two's `compute_load`: a rock in row `r` of `h` weighs `h - r`. */
  function NorthLoad(g: Grid): nat
  {
    if g == [] then 0 else |g| * Occurrences(g[0], 'O') + NorthLoad(g[1..])
  }

  lemma {:induction false} GridCountSnoc(g: Grid, row: seq<char>)
    ensures GridCount(g + [row]) == GridCount(g) + Occurrences(row, 'O')
  {
    if g == [] {
      assert g + [row] == [row];
    } else {
      assert (g + [row])[1..] == g[1..] + [row];
      GridCountSnoc(g[1..], row);
    }
  }

  /** Rows with the same cells hold as many round rocks. */
  lemma {:induction false} GridCountRowwise(a: Grid, b: Grid)
    requires |a| == |b| && forall r :: 0 <= r < |a| ==> multiset(a[r]) == multiset(b[r])
    ensures GridCount(a) == GridCount(b)
  {
    if a != [] {
      OccurrencesIsMultiplicity(a[0], 'O');
      OccurrencesIsMultiplicity(b[0], 'O');
      GridCountRowwise(a[1..], b[1..]);
    }
  }

  /** `col[i]` put in front of row `i` of `t`. */
  function Prefix(col: seq<char>, t: Grid): (p: Grid)
    requires |col| == |t|
    ensures |p| == |t| && forall i :: 0 <= i < |t| ==> p[i] == [col[i]] + t[i]
  {
    seq(|t|, i requires 0 <= i < |t| => [col[i]] + t[i])
  }

  /** Turning a platform with one more row at the bottom puts that row's
      cells at the front of the turned rows. */
  lemma TurnWSnoc(g: Grid, row: seq<char>, w: nat)
    requires (forall r :: 0 <= r < |g| ==> w <= |g[r]|) && w <= |row|
    ensures TurnW(g + [row], w) == Prefix(row[..w], TurnW(g, w))
  {
    var l, r := TurnW(g + [row], w), Prefix(row[..w], TurnW(g, w));
    forall i | 0 <= i < w ensures l[i] == r[i] {
      forall k | 0 <= k <= |g| ensures l[i][k] == r[i][k] {
        if k > 0 {
          assert r[i][k] == TurnW(g, w)[i][k - 1];
        }
      }
    }
  }

  lemma {:induction false} GridCountPrefix(col: seq<char>, t: Grid)
    requires |col| == |t|
    ensures GridCount(Prefix(col, t)) == Occurrences(col, 'O') + GridCount(t)
  {
    if t != [] {
      assert Prefix(col, t)[1..] == Prefix(col[1..], t[1..]);
      GridCountPrefix(col[1..], t[1..]);
    }
  }

  lemma {:induction false} EmptyRows(t: Grid)
    requires Rect(t, 0)
    ensures GridCount(t) == 0 && EastLoad(t) == 0
  {
    if t != [] {
      assert t[0] == [];
      EmptyRows(t[1..]);
    }
  }

  /** A turn moves every round rock but keeps their number. */
  lemma {:induction false} TurnWCount(g: Grid, w: nat)
    requires Rect(g, w)
    ensures GridCount(TurnW(g, w)) == GridCount(g)
    decreases |g|
  {
    if g == [] {
      EmptyRows(TurnW(g, w));
    } else {
      var init, last := g[..|g| - 1], g[|g| - 1];
      assert g == init + [last] && last[..w] == last;
      TurnWSnoc(init, last, w);
      GridCountPrefix(last, TurnW(init, w));
      TurnWCount(init, w);
      GridCountSnoc(init, last);
    }
  }

  lemma {:induction false} TurnsCount(g: Grid, h: nat, w: nat, n: nat)
    requires Platform(g, h, w)
    ensures GridCount(Turns(g, n)) == GridCount(g)
    decreases n
  {
    if n > 0 {
      TurnPlatform(g, h, w);
      TurnWCount(g, w);
      TurnsCount(Turn(g), w, h, n - 1);
    }
  }

  lemma RollGridCount(t: Grid, h: nat, w: nat)
    requires Platform(t, h, w)
    ensures GridCount(RollGrid(t).value) == GridCount(t)
  {
    RollGridPlatform(t, h, w);
    GridCountRowwise(RollGrid(t).value, t);
  }

  lemma {:induction false} RowLoadCons(x: char, s: seq<char>)
    ensures RowLoad([x] + s) == (if x == 'O' then 1 else 0) + RowLoad(s) + Occurrences(s, 'O')
    decreases |s|
  {
    if s == [] {
      assert [x] + s == [x] && [x][..0] == [];
    } else {
      var init, y := s[..|s| - 1], s[|s| - 1];
      assert ([x] + s)[..|s|] == [x] + init;
      RowLoadCons(x, init);
      assert s == init + [y];
      OccurrencesAppend(init, [y], 'O');
    }
  }

  lemma {:induction false} EastLoadPrefix(col: seq<char>, t: Grid)
    requires |col| == |t|
    ensures EastLoad(Prefix(col, t)) == Occurrences(col, 'O') + EastLoad(t) + GridCount(t)
  {
    if t != [] {
      assert Prefix(col, t)[1..] == Prefix(col[1..], t[1..]);
      RowLoadCons(col[0], t[0]);
      EastLoadPrefix(col[1..], t[1..]);
    }
  }

  lemma {:induction false} NorthLoadSnoc(g: Grid, row: seq<char>)
    ensures NorthLoad(g + [row]) == NorthLoad(g) + GridCount(g) + Occurrences(row, 'O')
  {
    if g == [] {
      assert g + [row] == [row];
    } else {
      assert (g + [row])[1..] == g[1..] + [row];
      NorthLoadSnoc(g[1..], row);
    }
  }

  /** Part two's load on a platform is part one's load on the platform
      turned once: a rock `k` rows above the bottom weighs `k + 1` either
      way. */
  lemma {:induction false} NorthIsTurnedEast(g: Grid, w: nat)
    requires Rect(g, w)
    ensures NorthLoad(g) == EastLoad(TurnW(g, w))
    decreases |g|
  {
    if g == [] {
      EmptyRows(TurnW(g, w));
    } else {
      var init, last := g[..|g| - 1], g[|g| - 1];
      assert g == init + [last] && last[..w] == last;
      TurnWSnoc(init, last, w);
      EastLoadPrefix(last, TurnW(init, w));
      TurnWCount(init, w);
      NorthIsTurnedEast(init, w);
      NorthLoadSnoc(init, last);
    }
  }

  /** Part one's `compute_load`. */
  method ComputeLoad(g: Grid) returns (load: nat)
    ensures load == EastLoad(g)
  {
    load := 0;
    for r := 0 to |g|
      invariant load + EastLoad(g[r..]) == EastLoad(g)
    {
      assert g[r..][1..] == g[r + 1..];
      var row := g[r];
      for c := 0 to |row|
        invariant load + EastLoad(g[r..]) == EastLoad(g) + RowLoad(row[..c])
      {
        assert row[..c + 1][..c] == row[..c];
        if row[c] == 'O' {
          load := load + c + 1;
        }
      }
      assert row[..|row|] == row;
    }
  }

  /** Part two's `compute_load`. */
  method ComputeNorthLoad(g: Grid) returns (load: nat)
    ensures load == NorthLoad(g)
  {
    load := 0;
    for r := 0 to |g|
      invariant load + NorthLoad(g[r..]) == NorthLoad(g)
    {
      assert g[r..][1..] == g[r + 1..];
      var weighed := WeighRow(g[r], |g| - r);
      load := load + weighed;
    }
  }

  /** The inner loop of part two's `compute_load`: every round rock of a
      row weighs `weight`. */
  method WeighRow(row: seq<char>, weight: nat) returns (sum: nat)
    ensures sum == weight * Occurrences(row, 'O')
  {
    sum := 0;
    for c := 0 to |row|
      invariant sum == weight * Occurrences(row[..c], 'O')
    {
      assert row[..c + 1] == row[..c] + [row[c]];
      OccurrencesAppend(row[..c], [row[c]], 'O');
      var before := Occurrences(row[..c], 'O');
      if row[c] == 'O' {
        assert weight * (before + 1) == weight * before + weight;
        sum := sum + weight;
      }
    }
    assert row[..|row|] == row;
  }

  lemma {:induction false} RowLoadUpdate(row: seq<char>, i: nat, x: char)
    requires i < |row|
    ensures RowLoad(row[i := x]) + (if row[i] == 'O' then i + 1 else 0) == RowLoad(row) + (if x == 'O' then i + 1 else 0)
    decreases |row|
  {
    var n := |row|;
    if i < n - 1 {
      assert row[i := x][..n - 1] == row[..n - 1][i := x];
      RowLoadUpdate(row[..n - 1], i, x);
    } else {
      assert row[i := x][..n - 1] == row[..n - 1];
    }
  }

  /** Rolling toward the row end never lowers part one's load, and a rock
      that moves raises it. */
  lemma RollAtRaisesLoad(row: seq<char>, c: nat)
    requires c + 1 < |row|
    ensures RowLoad(RollAt(row, c)) >= RowLoad(row)
    ensures RollAt(row, c) != row ==> RowLoad(RollAt(row, c)) > RowLoad(row)
  {
    if row[c] != '#' && row[c] != '.' {
      var dest := Stop(row, c + 1) - 1;
      if dest > c {
        RowLoadUpdate(row, c, '.');
        RowLoadUpdate(row[c := '.'], dest, 'O');
      }
    }
  }

  lemma {:induction false} RollColsRaisesLoad(row: seq<char>, n: nat)
    requires n < |row|
    ensures RowLoad(RollCols(row, n)) >= RowLoad(row)
    decreases n
  {
    if n > 0 {
      var next := RollAt(row, n - 1);
      RollAtRaisesLoad(row, n - 1);
      RollColsRaisesLoad(next, n - 1);
    }
  }

  lemma RollRaisesLoad(row: seq<char>)
    ensures RowLoad(Roll(row)) >= RowLoad(row)
  {
    if |row| >= 2 {
      RollColsRaisesLoad(row, |row| - 1);
    }
  }

  /** Part one's roll: each turned row is a column read from the bottom
      up and rolled, so every round rock ends against a cube rock, another
      round rock or the north edge. */
  lemma RollNorthSpec(g: Grid, h: nat, w: nat)
    requires Platform(g, h, w)
    ensures RollNorth(g, 'N').Some? && Platform(RollNorth(g, 'N').value, w, h)
    ensures forall i :: 0 <= i < w ==> RollNorth(g, 'N').value[i] == Roll(Turn(g)[i])
    ensures forall i :: 0 <= i < w ==> SettledFrom(RollNorth(g, 'N').value[i], 0)
    ensures forall d :: d != 'N' ==> RollNorth(g, d).None?
  {
    TurnPlatform(g, h, w);
    assert Turns(g, 1) == Turn(g);
    RollGridPlatform(Turn(g), w, h);
    forall i | 0 <= i < w ensures SettledFrom(RollNorth(g, 'N').value[i], 0) {
      RollSpec(Turn(g)[i]);
    }
  }

  /** A round rock in row `i` has no empty cell right above it. */
  predicate RestsNorth(g: Grid, i: nat, k: nat)
    requires 1 <= i < |g| && k < |g[i]| && k < |g[i - 1]|
  {
    g[i][k] == 'O' ==> g[i - 1][k] != '.'
  }

  /** Three quarter turns: row `i` of the result is column `w - 1 - i`
      read from the top down. */
  lemma ThreeTurns(t: Grid, h: nat, w: nat)
    requires Platform(t, h, w)
    ensures Platform(Turns(t, 3), w, h)
    ensures forall i, k :: 0 <= i < w && 0 <= k < h ==> Turns(t, 3)[i][k] == t[k][w - 1 - i]
  {
    HalfTurn(t, h, w);
    var half := Turns(t, 2);
    TurnPlatform(half, h, w);
    TurnsAdd(t, 2, 1);
    assert Turns(half, 1) == Turn(half);
    forall i, k | 0 <= i < w && 0 <= k < h ensures Turns(t, 3)[i][k] == t[k][w - 1 - i] {
      assert Turn(half)[i][k] == half[h - 1 - k][i];
    }
  }

  /** Every rolled row is settled. */
  lemma RollGridSettles(t: Grid, h: nat, w: nat)
    requires Platform(t, h, w)
    ensures RollGrid(t).Some?
    ensures forall j :: 0 <= j < h ==> SettledFrom(RollGrid(t).value[j], 0)
  {
    forall j | 0 <= j < h ensures SettledFrom(RollGrid(t).value[j], 0) {
      RollSpec(t[j]);
    }
  }

  /** Part two's roll north, back in the platform's own orientation: no
      round rock has an empty cell right above it. */
  lemma RollTowardNorthSettles(g: Grid, h: nat, w: nat)
    requires Platform(g, h, w)
    ensures RollToward(g, 'N').Some?
    ensures Platform(RollToward(g, 'N').value, h, w)
    ensures forall i, k :: 1 <= i < h && 0 <= k < w ==> RestsNorth(RollToward(g, 'N').value, i, k)
  {
    TurnPlatform(g, h, w);
    assert Turns(g, 1) == Turn(g);
    RollGridPlatform(Turn(g), w, h);
    RollGridSettles(Turn(g), w, h);
    var rolled := RollGrid(Turn(g)).value;
    ThreeTurns(rolled, w, h);
    var n := RollToward(g, 'N').value;
    assert n == Turns(rolled, 3);
    forall i, k | 1 <= i < h && 0 <= k < w ensures RestsNorth(n, i, k) {
      assert n[i][k] == rolled[k][h - 1 - i];
      assert n[i - 1][k] == rolled[k][h - i];
      assert SettledFrom(rolled[k], 0);
    }
  }

  // ---------------------------------------------------------------
  // The spin cycle search in part two's `main`
  // ---------------------------------------------------------------

  /** One spin as a total step; a platform always spins (`SpinPlatform`). */
  function Next(g: Grid): Grid
  {
    match Spin(g)
    case Some(s) => s
    case None => g
  }

  /** Every spin of a platform succeeds, and the platform keeps its shape,
      its cube rocks and its number of round rocks. */
  lemma {:induction false} IterPlatform(g: Grid, h: nat, w: nat, n: nat)
    requires Platform(g, h, w)
    ensures Platform(Cycles.Iter(Next, g, n), h, w) && SameWalls(Cycles.Iter(Next, g, n), g)
    ensures GridCount(Cycles.Iter(Next, g, n)) == GridCount(g)
    ensures Spin(Cycles.Iter(Next, g, n)) == Some(Cycles.Iter(Next, g, n + 1))
  {
    if n > 0 {
      IterPlatform(g, h, w, n - 1);
      var before := Cycles.Iter(Next, g, n - 1);
      SpinPlatform(before, h, w);
      assert Cycles.Iter(Next, g, n) == Next(before);
      SameWallsTransitive(Cycles.Iter(Next, g, n), before, g);
    }
    SpinPlatform(Cycles.Iter(Next, g, n), h, w);
    assert Cycles.Iter(Next, g, n + 1) == Next(Cycles.Iter(Next, g, n));
  }

  lemma SameWallsTransitive(a: Grid, b: Grid, c: Grid)
    requires SameWalls(a, b) && SameWalls(b, c)
    ensures SameWalls(a, c)
  {
  }

  /** Part two's `main`: the spin cycle search (`Cycles.SkipAhead`) with
      `roll_rocks_one_cycle` as the step, then the load of the platform it
      reaches. */
  method SpinCycleLoad(g: Grid, fuel: nat) returns (r: Option<nat>)
    requires fuel <= Cycles.Target
    ensures r.Some? ==> r.value == NorthLoad(Cycles.Iter(Next, g, Cycles.Target))
  {
    var reached := Cycles.SkipAhead(Next, g, fuel);
    if reached.None? {
      return None;
    }
    var load := ComputeNorthLoad(reached.value);
    r := Some(load);
  }
}
