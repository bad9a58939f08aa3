/** Day 18: the lava lagoon. A digger follows a list of instructions
    (a direction and a distance) around a closed trench. Part one draws the
    trench on a grid and fills it by casting diagonal rays; part two decodes
    the instructions from hexadecimal colours and measures the lagoon with
    the shoelace formula and Pick's theorem. */
module Lagoon {
  import opened Wrappers
  import opened Arith
  import opened Text

  type Pos = (int, int)
  type Grid = seq<seq<char>>

  datatype Dir = R | L | U | D

  /** One line of the dig plan (part one's colour is never read). */
  datatype Instruction = Instruction(dir: Dir, amt: nat)

  // The plan's geometry, shared by both parts.

  /** `vector_map`: rows grow downwards, columns to the right. */
  function Vector(d: Dir): (v: Pos)
    ensures Abs(v.0) + Abs(v.1) == 1
    ensures d == R <==> v == (0, 1)
    ensures d == L <==> v == (0, -1)
    ensures d == U <==> v == (-1, 0)
    ensures d == D <==> v == (1, 0)
  {
    match d
    case R => (0, 1)
    case L => (0, -1)
    case U => (-1, 0)
    case D => (1, 0)
  }

  /** The cell `k` steps from `p` in direction `d`. */
  function Ahead(p: Pos, d: Dir, k: int): Pos
  {
    match d
    case R => (p.0, p.1 + k)
    case L => (p.0, p.1 - k)
    case U => (p.0 - k, p.1)
    case D => (p.0 + k, p.1)
  }

  /** One more step moves by the unit vector. */
  lemma AheadStep(p: Pos, d: Dir, x: int)
    ensures Ahead(p, d, x + 1) == (Ahead(p, d, x).0 + Vector(d).0, Ahead(p, d, x).1 + Vector(d).1)
  {
  }

  /** Where the digger stands after following `ins` from `o`. */
  function Travel(o: Pos, ins: seq<Instruction>): Pos
    decreases |ins|
  {
    if ins == [] then o
    else
      var last := ins[|ins| - 1];
      Ahead(Travel(o, ins[..|ins| - 1]), last.dir, last.amt)
  }

  /** Following a plan from `o` is following it from the origin, shifted by `o`. */
  lemma {:induction false} TravelFrom(o: Pos, ins: seq<Instruction>)
    ensures Travel(o, ins) == (o.0 + Travel((0, 0), ins).0, o.1 + Travel((0, 0), ins).1)
    decreases |ins|
  {
    if ins != [] {
      TravelFrom(o, ins[..|ins| - 1]);
    }
  }

  /** Following `a` then `b` is following `b` from where `a` ends. */
  lemma {:induction false} TravelAppend(o: Pos, a: seq<Instruction>, b: seq<Instruction>)
    ensures Travel(o, a + b) == Travel(Travel(o, a), b)
    decreases |b|
  {
    if b == [] {
      assert a + b == a;
    } else {
      assert (a + b)[..|a + b| - 1] == a + b[..|b| - 1];
      TravelAppend(o, a, b[..|b| - 1]);
    }
  }

  /** The cells dug by an instruction of distance `n` started at `p`:
      the `k`-th step lands `k + 1` cells ahead. */
  function Segment(p: Pos, d: Dir, n: nat): (s: seq<Pos>)
    ensures |s| == n
  {
    seq(n, k => Ahead(p, d, k + 1))
  }

  lemma SegmentStep(p: Pos, d: Dir, x: nat)
    ensures Segment(p, d, x + 1) == Segment(p, d, x) + [Ahead(p, d, x + 1)]
  {
  }

  /** Every cell the digger steps on, in order, starting from `o` (the
      starting cell itself is only dug when a step returns to it). */
  function Trace(o: Pos, ins: seq<Instruction>): seq<Pos>
    decreases |ins|
  {
    if ins == [] then []
    else
      var last := ins[|ins| - 1];
      Trace(o, ins[..|ins| - 1]) + Segment(Travel(o, ins[..|ins| - 1]), last.dir, last.amt)
  }

  /** The sum of the distances: the trench's length. */
  function Perimeter(ins: seq<Instruction>): nat
  {
    if ins == [] then 0 else Perimeter(ins[..|ins| - 1]) + ins[|ins| - 1].amt
  }

  /** Part one digs one cell per unit of distance, so its edge list is as
      long as part two's boundary. */
  lemma {:induction false} TraceLength(o: Pos, ins: seq<Instruction>)
    ensures |Trace(o, ins)| == Perimeter(ins)
    decreases |ins|
  {
    if ins != [] {
      TraceLength(o, ins[..|ins| - 1]);
    }
  }

  lemma {:induction false} PerimeterAppend(a: seq<Instruction>, b: seq<Instruction>)
    ensures Perimeter(a + b) == Perimeter(a) + Perimeter(b)
    decreases |b|
  {
    if b == [] {
      assert a + b == a;
    } else {
      assert (a + b)[..|a + b| - 1] == a + b[..|b| - 1];
      PerimeterAppend(a, b[..|b| - 1]);
    }
  }

  // Part one: the trench drawn on a grid and filled by ray casting.

  /** The bounding box of the origin and the instruction endpoints, as
      (min row, max row, min column, max column). */
  function Box(ins: seq<Instruction>): (b: (int, int, int, int))
    ensures b.0 <= 0 <= b.1 && b.2 <= 0 <= b.3
    decreases |ins|
  {
    if ins == [] then (0, 0, 0, 0)
    else
      var b := Box(ins[..|ins| - 1]);
      var p := Travel((0, 0), ins);
      (Min(b.0, p.0), Max(b.1, p.0), Min(b.2, p.1), Max(b.3, p.1))
  }

  predicate InBox(p: Pos, b: (int, int, int, int))
  {
    b.0 <= p.0 <= b.1 && b.2 <= p.1 <= b.3
  }

  /** The origin and every endpoint lie in the box. */
  lemma {:induction false} BoxHolds(ins: seq<Instruction>)
    ensures forall k :: 0 <= k <= |ins| ==> InBox(Travel((0, 0), ins[..k]), Box(ins))
    decreases |ins|
  {
    if ins != [] {
      var init := ins[..|ins| - 1];
      BoxHolds(init);
      forall k | 0 <= k <= |ins|
        ensures InBox(Travel((0, 0), ins[..k]), Box(ins))
      {
        if k < |ins| {
          assert ins[..k] == init[..k];
        } else {
          assert ins[..k] == ins;
        }
      }
    }
  }

  /** The box is no larger than it must be: each of its bounds is reached
      by the origin or by an endpoint. */
  lemma {:induction false} BoxTight(ins: seq<Instruction>) returns (k0: nat, k1: nat, k2: nat, k3: nat)
    ensures k0 <= |ins| && Travel((0, 0), ins[..k0]).0 == Box(ins).0
    ensures k1 <= |ins| && Travel((0, 0), ins[..k1]).0 == Box(ins).1
    ensures k2 <= |ins| && Travel((0, 0), ins[..k2]).1 == Box(ins).2
    ensures k3 <= |ins| && Travel((0, 0), ins[..k3]).1 == Box(ins).3
    decreases |ins|
  {
    if ins == [] {
      return 0, 0, 0, 0;
    }
    var init := ins[..|ins| - 1];
    k0, k1, k2, k3 := BoxTight(init);
    assert ins[..k0] == init[..k0];
    assert ins[..k1] == init[..k1];
    assert ins[..k2] == init[..k2];
    assert ins[..k3] == init[..k3];
    var p := Travel((0, 0), ins);
    assert ins[..|ins|] == ins;
    if p.0 < Box(init).0 {
      k0 := |ins|;
    }
    if p.0 > Box(init).1 {
      k1 := |ins|;
    }
    if p.1 < Box(init).2 {
      k2 := |ins|;
    }
    if p.1 > Box(init).3 {
      k3 := |ins|;
    }
  }

  /** A cell dug by instruction `i` lies between its two endpoints, hence
      in the box. */
  lemma SegmentInBox(ins: seq<Instruction>, i: nat, x: int)
    requires i < |ins| && 1 <= x <= ins[i].amt
    ensures InBox(Ahead(Travel((0, 0), ins[..i]), ins[i].dir, x), Box(ins))
  {
    BoxHolds(ins);
    assert ins[..i + 1][..i] == ins[..i];
    assert InBox(Travel((0, 0), ins[..i]), Box(ins));
    assert InBox(Travel((0, 0), ins[..i + 1]), Box(ins));
  }

  /** The first loop of `dig`: the bounding box of the endpoints, walked
      one step at a time. */
  method BoundingBox(ins: seq<Instruction>) returns (minRow: int, maxRow: int, minCol: int, maxCol: int)
    ensures (minRow, maxRow, minCol, maxCol) == Box(ins)
  {
    minRow, maxRow, minCol, maxCol := 0, 0, 0, 0;
    var location := (0, 0);
    for i := 0 to |ins|
      invariant location == Travel((0, 0), ins[..i])
      invariant (minRow, maxRow, minCol, maxCol) == Box(ins[..i])
    {
      var d, amt := ins[i].dir, ins[i].amt;
      var v := Vector(d);
      ghost var p := location;
      for x := 0 to amt
        invariant location == Ahead(p, d, x)
      {
        AheadStep(p, d, x);
        location := (location.0 + v.0, location.1 + v.1);
      }
      assert ins[..i + 1][..i] == ins[..i];
      minRow := Min(minRow, location.0);
      maxRow := Max(maxRow, location.0);
      minCol := Min(minCol, location.1);
      maxCol := Max(maxCol, location.1);
    }
    assert ins[..|ins|] == ins;
  }

  function Height(ins: seq<Instruction>): nat
  {
    Box(ins).1 - Box(ins).0 + 1
  }

  function Width(ins: seq<Instruction>): nat
  {
    Box(ins).3 - Box(ins).2 + 1
  }

  /** The start, shifted so that the box's corner is cell (0, 0). */
  function Origin(ins: seq<Instruction>): Pos
  {
    (-Box(ins).0, -Box(ins).2)
  }

  /** The edge list `dig` returns. */
  function Edges(ins: seq<Instruction>): seq<Pos>
  {
    Trace(Origin(ins), ins)
  }

  /** The grid `dig` returns: `#` on the trench, `.` elsewhere. */
  function DugGrid(ins: seq<Instruction>): (g: Grid)
    ensures |g| == Height(ins) && forall r :: 0 <= r < |g| ==> |g[r]| == Width(ins)
  {
    seq(Height(ins), r => seq(Width(ins), c => if (r, c) in Edges(ins) then '#' else '.'))
  }

  predicate InGrid(q: Pos, height: int, width: int)
  {
    0 <= q.0 < height && 0 <= q.1 < width
  }

  /** Every step of the shifted walk stays on the grid. */
  lemma CellInGrid(ins: seq<Instruction>, i: nat, x: int)
    requires i < |ins| && 1 <= x <= ins[i].amt
    ensures InGrid(Ahead(Travel(Origin(ins), ins[..i]), ins[i].dir, x), Height(ins), Width(ins))
  {
    TravelFrom(Origin(ins), ins[..i]);
    SegmentInBox(ins, i, x);
  }

  /** The grid is big enough: every edge lies on it. */
  lemma {:induction false} TraceInGrid(ins: seq<Instruction>, n: nat)
    requires n <= |ins|
    ensures forall k :: 0 <= k < |Trace(Origin(ins), ins[..n])| ==>
      InGrid(Trace(Origin(ins), ins[..n])[k], Height(ins), Width(ins))
    decreases n
  {
    if n > 0 {
      TraceInGrid(ins, n - 1);
      assert ins[..n][..n - 1] == ins[..n - 1];
      var s := Segment(Travel(Origin(ins), ins[..n - 1]), ins[n - 1].dir, ins[n - 1].amt);
      forall k | 0 <= k < |s|
        ensures InGrid(s[k], Height(ins), Width(ins))
      {
        CellInGrid(ins, n - 1, k + 1);
      }
    }
  }

  lemma EdgesInGrid(ins: seq<Instruction>)
    ensures forall k :: 0 <= k < |Edges(ins)| ==> InGrid(Edges(ins)[k], Height(ins), Width(ins))
  {
    TraceInGrid(ins, |ins|);
    assert ins[..|ins|] == ins;
  }

  /** The grid's rows, read from the array. */
  function Rows(a: array2<char>): (g: Grid)
    reads a
    ensures |g| == a.Length0 && forall i :: 0 <= i < a.Length0 ==> |g[i]| == a.Length1
  {
    seq(a.Length0, i requires 0 <= i < a.Length0 reads a =>
      seq(a.Length1, j requires 0 <= j < a.Length1 reads a => a[i, j]))
  }

  /** Exactly the cells of `edges` that lie on the grid are `#`. */
  predicate Marked(grid: array2<char>, edges: seq<Pos>)
    reads grid
  {
    forall r, c :: 0 <= r < grid.Length0 && 0 <= c < grid.Length1 ==> grid[r, c] == if (r, c) in edges then '#' else '.'
  }

  /** The inner loop of `dig`'s second pass: instruction `i`, one step at a
      time. */
  method DigInstruction(grid: array2<char>, ins: seq<Instruction>, i: nat, location: Pos, edges: seq<Pos>)
    returns (location': Pos, edges': seq<Pos>)
    requires i < |ins| && grid.Length0 == Height(ins) && grid.Length1 == Width(ins)
    requires location == Travel(Origin(ins), ins[..i]) && edges == Trace(Origin(ins), ins[..i])
    requires Marked(grid, edges)
    modifies grid
    ensures location' == Travel(Origin(ins), ins[..i + 1]) && edges' == Trace(Origin(ins), ins[..i + 1])
    ensures Marked(grid, edges')
  {
    var d, amt := ins[i].dir, ins[i].amt;
    var v := Vector(d);
    location', edges' := location, edges;
    for x := 0 to amt
      invariant location' == Ahead(location, d, x)
      invariant edges' == edges + Segment(location, d, x)
      invariant Marked(grid, edges')
    {
      AheadStep(location, d, x);
      location' := (location'.0 + v.0, location'.1 + v.1);
      CellInGrid(ins, i, x + 1);
      SegmentStep(location, d, x);
      edges' := edges' + [location'];
      grid[location'.0, location'.1] := '#';
    }
    assert ins[..i + 1][..i] == ins[..i];
  }

  /** `dig`: an array of the box's size, with every step of the shifted
      walk appended to `edges` and marked `#`. */
  method Dig(ins: seq<Instruction>) returns (grid: array2<char>, edges: seq<Pos>)
    ensures fresh(grid)
    ensures grid.Length0 == Height(ins) && grid.Length1 == Width(ins)
    ensures edges == Edges(ins)
    ensures forall r, c :: 0 <= r < grid.Length0 && 0 <= c < grid.Length1 ==> grid[r, c] == DugGrid(ins)[r][c]
  {
    var minRow, maxRow, minCol, maxCol := BoundingBox(ins);
    var width := maxCol - minCol + 1;
    var height := maxRow - minRow + 1;
    grid := new char[height, width]((_, _) => '.');
    edges := [];
    var location: Pos := (Abs(minRow), Abs(minCol));
    for i := 0 to |ins|
      invariant location == Travel(Origin(ins), ins[..i])
      invariant edges == Trace(Origin(ins), ins[..i])
      invariant Marked(grid, edges)
    {
      location, edges := DigInstruction(grid, ins, i, location, edges);
    }
    assert ins[..|ins|] == ins;
  }

  predicate Rect(g: Grid)
  {
    g != [] && forall r :: 0 <= r < |g| ==> |g[r]| == |g[0]|
  }

  /** `is_corner`: the edge cell `(x, y)` turns up and right around a `.`
      (configuration 1) or down and left around a `.` (configuration 2);
      the diagonal ray only grazes such a turn. */
  predicate Corner(g: Grid, x: int, y: int)
    requires Rect(g) && 0 <= x < |g| && 0 <= y < |g[0]|
  {
    var maxX, maxY := |g| - 1, |g[0]| - 1;
    (x > 0 && y < maxY && g[x - 1][y] == '#' && g[x][y + 1] == '#' && g[x - 1][y + 1] == '.') ||
    (x < maxX && y > 0 && g[x + 1][y] == '#' && g[x][y - 1] == '#' && g[x + 1][y - 1] == '.')
  }

  /** The edge cells the diagonal ray from `(x, y)` crosses, corners left
      out. */
  function Crossings(g: Grid, edges: seq<Pos>, x: int, y: int): nat
    requires Rect(g) && 0 <= x && 0 <= y
    decreases |g| - x
  {
    if x < |g| && y < |g[0]| then
      (if (x, y) in edges && !Corner(g, x, y) then 1 else 0) + Crossings(g, edges, x + 1, y + 1)
    else 0
  }

  /** The ray crosses at most one edge per cell it passes. */
  lemma {:induction false} CrossingsAtMost(g: Grid, edges: seq<Pos>, x: int, y: int)
    requires Rect(g) && 0 <= x && 0 <= y
    ensures Crossings(g, edges, x, y) <= Max(0, Min(|g| - x, |g[0]| - y))
    decreases |g| - x
  {
    if x < |g| && y < |g[0]| {
      CrossingsAtMost(g, edges, x + 1, y + 1);
    }
  }

  /** With no edges, no cell is inside. */
  lemma {:induction false} NoEdgesNoCrossings(g: Grid, x: int, y: int)
    requires Rect(g) && 0 <= x && 0 <= y
    ensures Crossings(g, [], x, y) == 0
    decreases |g| - x
  {
    if x < |g| && y < |g[0]| {
      NoEdgesNoCrossings(g, x + 1, y + 1);
    }
  }

  /** `is_corner` on the array, checking the two configurations in turn. */
  method IsCorner(grid: array2<char>, x: int, y: int) returns (b: bool)
    requires 0 <= x < grid.Length0 && 0 <= y < grid.Length1
    ensures b == Corner(Rows(grid), x, y)
  {
    var maxX := grid.Length0 - 1;
    var maxY := grid.Length1 - 1;
    if x > 0 && y < maxY && grid[x - 1, y] == '#' && grid[x, y + 1] == '#' && grid[x - 1, y + 1] == '.' {
      return true;
    }
    if x < maxX && y > 0 && grid[x + 1, y] == '#' && grid[x, y - 1] == '#' && grid[x + 1, y - 1] == '.' {
      return true;
    }
    return false;
  }

  /** `is_inside_polygon`: walks the diagonal from `(row, col)` to the grid's
      edge counting crossings; inside iff the count is odd. */
  method IsInsidePolygon(row: int, col: int, grid: array2<char>, edges: seq<Pos>) returns (inside: bool)
    requires grid.Length0 > 0 && 0 <= row && 0 <= col
    ensures inside == (Crossings(Rows(grid), edges, row, col) % 2 == 1)
  {
    var intersections := 0;
    var x, y := row, col;
    var gridHeight := grid.Length0;
    var gridWidth := grid.Length1;
    while x < gridHeight && y < gridWidth
      invariant row <= x && col <= y
      invariant intersections + Crossings(Rows(grid), edges, x, y) == Crossings(Rows(grid), edges, row, col)
      decreases gridHeight - x
    {
      if (x, y) in edges {
        var corner := IsCorner(grid, x, y);
        if !corner {
          intersections := intersections + 1;
        }
      }
      x, y := x + 1, y + 1;
    }
    return intersections % 2 == 1;
  }

  /** Two grids of one shape that agree on which cells are `#`, and agree
      outright on every cell after `(r, c)` in reading order. */
  predicate AgreeAfter(g1: Grid, g2: Grid, r: int, c: int)
  {
    Rect(g1) && Rect(g2) && |g1| == |g2| && |g1[0]| == |g2[0]| &&
    (forall i, j :: 0 <= i < |g1| && 0 <= j < |g1[0]| ==> (g1[i][j] == '#' <==> g2[i][j] == '#')) &&
    (forall i, j :: 0 <= i < |g1| && 0 <= j < |g1[0]| && (i > r || (i == r && j > c)) ==> g1[i][j] == g2[i][j])
  }

  /** Past its first cell, the ray from `(r, c)` reads `#` anywhere but `.`
      only at cells after `(r, c)`: so filling the cells before it does not
      change its count. */
  lemma {:induction false} CrossingsAfter(g1: Grid, g2: Grid, edges: seq<Pos>, r: int, c: int, x: int, y: int)
    requires AgreeAfter(g1, g2, r, c)
    requires 0 <= r < x && x - r == y - c && 0 <= c
    ensures Crossings(g1, edges, x, y) == Crossings(g2, edges, x, y)
    decreases |g1| - x
  {
    if x < |g1| && y < |g1[0]| {
      assert Corner(g1, x, y) == Corner(g2, x, y) by {
        if x > 0 && y < |g1[0]| - 1 {
          assert g1[x - 1][y + 1] == g2[x - 1][y + 1];
        }
        if x < |g1| - 1 && y > 0 {
          assert g1[x + 1][y - 1] == g2[x + 1][y - 1];
        }
      }
      CrossingsAfter(g1, g2, edges, r, c, x + 1, y + 1);
    }
  }

  /** The ray from a `.` cell that is not an edge counts the same in both
      grids. */
  lemma RayStable(g1: Grid, g2: Grid, edges: seq<Pos>, r: int, c: int)
    requires AgreeAfter(g1, g2, r, c) && 0 <= r < |g1| && 0 <= c < |g1[0]| && (r, c) !in edges
    ensures Crossings(g1, edges, r, c) == Crossings(g2, edges, r, c)
  {
    CrossingsAfter(g1, g2, edges, r, c, r + 1, c + 1);
  }

  /** What `infill` leaves in cell `(r, c)` of `g`: a `.` cell becomes `+`
      when inside, any other cell is kept. */
  function Fill(g: Grid, edges: seq<Pos>, r: int, c: int): char
    requires Rect(g) && 0 <= r < |g| && 0 <= c < |g[0]|
  {
    if g[r][c] == '.' then (if Crossings(g, edges, r, c) % 2 == 1 then '+' else '.') else g[r][c]
  }

  /** Every edge cell on the grid is `#`. */
  predicate Kept(g: Grid, edges: seq<Pos>)
  {
    forall r, c :: 0 <= r < |g| && 0 <= c < |g[r]| && (r, c) in edges ==> g[r][c] == '#'
  }

  /** `infill` has handled the cells before `(i, j)` in reading order and
      left the others as they were in `orig`. */
  predicate FilledTo(grid: array2<char>, orig: Grid, edges: seq<Pos>, i: int, j: int)
    reads grid
    requires Rect(orig) && |orig| == grid.Length0 && |orig[0]| == grid.Length1
  {
    forall r, c :: 0 <= r < grid.Length0 && 0 <= c < grid.Length1 ==>
      grid[r, c] == if r < i || (r == i && c < j) then Fill(orig, edges, r, c) else orig[r][c]
  }

  /** A half-filled grid agrees with the original on `#` everywhere and on
      every cell from `(i, j)` on. */
  lemma FilledAgrees(grid: array2<char>, orig: Grid, edges: seq<Pos>, i: int, j: int)
    requires Rect(orig) && |orig| == grid.Length0 && |orig[0]| == grid.Length1
    requires FilledTo(grid, orig, edges, i, j)
    ensures AgreeAfter(Rows(grid), orig, i, j)
  {
    var g := Rows(grid);
    forall r, c | 0 <= r < |g| && 0 <= c < |g[0]|
      ensures (g[r][c] == '#' <==> orig[r][c] == '#')
    {
      assert g[r][c] == grid[r, c];
    }
    forall r, c | 0 <= r < |g| && 0 <= c < |g[0]| && (r > i || (r == i && c > j))
      ensures g[r][c] == orig[r][c]
    {
      assert g[r][c] == grid[r, c];
    }
  }

  /** One row of `infill`. */
  method InfillRow(grid: array2<char>, edges: seq<Pos>, i: int, ghost orig: Grid)
    requires 0 <= i < grid.Length0 && Rect(orig) && |orig| == grid.Length0 && |orig[0]| == grid.Length1
    requires Kept(orig, edges) && FilledTo(grid, orig, edges, i, 0)
    modifies grid
    ensures FilledTo(grid, orig, edges, i + 1, 0)
  {
    for j := 0 to grid.Length1
      invariant FilledTo(grid, orig, edges, i, j)
    {
      if grid[i, j] == '.' {
        var inside := IsInsidePolygon(i, j, grid, edges);
        FilledAgrees(grid, orig, edges, i, j);
        RayStable(Rows(grid), orig, edges, i, j);
        if inside {
          grid[i, j] := '+';
        } else {
          grid[i, j] := '.';
        }
      }
    }
  }

  /** `infill`: every `.` cell becomes `+` exactly when the ray from it, cast
      over the grid as `dig` left it, crosses the trench an odd number of
      times. The cells filled earlier do not disturb the later rays. */
  method Infill(grid: array2<char>, edges: seq<Pos>)
    requires Kept(Rows(grid), edges)
    modifies grid
    ensures forall r, c :: 0 <= r < grid.Length0 && 0 <= c < grid.Length1 ==>
      grid[r, c] == Fill(old(Rows(grid)), edges, r, c)
  {
    if grid.Length0 == 0 {
      return;
    }
    ghost var orig := Rows(grid);
    for i := 0 to grid.Length0
      invariant FilledTo(grid, orig, edges, i, 0)
    {
      InfillRow(grid, edges, i, orig);
    }
  }

  /** The cells of `row` before column `j` that are not `.`. */
  function RowTally(row: seq<char>, j: nat): nat
    requires j <= |row|
  {
    if j == 0 then 0 else RowTally(row, j - 1) + (if row[j - 1] != '.' then 1 else 0)
  }

  /** The cells of the first `n` rows that are not `.`. */
  function Tally(g: Grid, n: nat): nat
    requires n <= |g|
  {
    if n == 0 then 0 else Tally(g, n - 1) + RowTally(g[n - 1], |g[n - 1]|)
  }

  /** `main`'s count: every cell that is not `.`. */
  method CountTiles(grid: array2<char>) returns (count: nat)
    ensures count == Tally(Rows(grid), grid.Length0)
  {
    ghost var g := Rows(grid);
    count := 0;
    for r := 0 to grid.Length0
      invariant count == Tally(g, r)
    {
      for c := 0 to grid.Length1
        invariant count == Tally(g, r) + RowTally(g[r], c)
      {
        if grid[r, c] != '.' {
          count := count + 1;
        }
      }
    }
  }

  /** The grid after `infill`, as a function of the plan. */
  function Filled(ins: seq<Instruction>): (g: Grid)
    ensures |g| == Height(ins) && forall r :: 0 <= r < |g| ==> |g[r]| == Width(ins)
  {
    var dug := DugGrid(ins);
    seq(Height(ins), r requires 0 <= r < Height(ins) => seq(Width(ins), c requires 0 <= c < Width(ins) => Fill(dug, Edges(ins), r, c)))
  }

  /** A cell is counted exactly when it is on the trench or its ray crosses
      the trench an odd number of times. */
  lemma LagoonCell(ins: seq<Instruction>, r: int, c: int)
    requires 0 <= r < Height(ins) && 0 <= c < Width(ins)
    ensures Filled(ins)[r][c] != '.' <==>
      (r, c) in Edges(ins) || Crossings(DugGrid(ins), Edges(ins), r, c) % 2 == 1
  {
  }

  lemma RowsAre(a: array2<char>, g: Grid)
    requires |g| == a.Length0 && forall r :: 0 <= r < |g| ==> |g[r]| == a.Length1
    requires forall r, c :: 0 <= r < a.Length0 && 0 <= c < a.Length1 ==> a[r, c] == g[r][c]
    ensures Rows(a) == g
  {
    forall r | 0 <= r < |g|
      ensures Rows(a)[r] == g[r]
    {
    }
  }

  /** Part one: dig, fill, and count the cubic metres of the lagoon. */
  method PartOne(ins: seq<Instruction>) returns (count: nat)
    ensures count == Tally(Filled(ins), Height(ins))
  {
    var grid, edges := Dig(ins);
    RowsAre(grid, DugGrid(ins));
    Infill(grid, edges);
    RowsAre(grid, Filled(ins));
    count := CountTiles(grid);
  }

  // Part two: the plan hidden in the colours, measured by formula.

  /** The value of a hexadecimal digit of either case, as `int(_, 16)` reads it. */
  function HexDigit(c: char): (v: Option<nat>)
    ensures v.Some? ==> v.value < 16
  {
    if '0' <= c <= '9' then Some(c as int - '0' as int)
    else if 'a' <= c <= 'f' then Some(c as int - 'a' as int + 10)
    else if 'A' <= c <= 'F' then Some(c as int - 'A' as int + 10)
    else None
  }

  /** The value of a string of hexadecimal digits, most significant first
      (the empty string reads as 0 here). */
  function HexDigits(s: string): Option<nat>
    decreases |s|
  {
    if s == [] then Some(0)
    else
      match (HexDigits(s[..|s| - 1]), HexDigit(s[|s| - 1]))
      case (Some(a), Some(b)) => Some(16 * a + b)
      case _ => None
  }

  /** Python's `int(s, 16)`, ASCII only: surrounding whitespace, an optional
      sign, an optional `0x` or `0X` prefix that one underscore may follow,
      then hex digits in groups joined by single underscores; `None` for the
      `ValueError`. */
  function PyHex(s: string): (r: Option<int>)
    ensures r.Some? <==> Text.Strip(s) != [] && HexGrouped(Unprefixed(Unsigned(Text.Strip(s))))
    ensures r.Some? && r.value < 0 ==> Text.Strip(s)[0] == '-'
  {
    var t := Text.Strip(s);
    if t == [] then None else SignedHex(t)
  }

  /** `int(_, 16)` on text with no whitespace at its ends: the value of the
      grouped body after the sign and the prefix, negated after a minus. */
  function SignedHex(t: string): (r: Option<int>)
    requires t != []
    ensures r.Some? <==> HexGrouped(Unprefixed(Unsigned(t)))
    ensures r.Some? && r.value < 0 ==> t[0] == '-'
  {
    match HexBody(Unprefixed(Unsigned(t)))
    case None => None
    case Some(v) => Some(if t[0] == '-' then -(v as int) else v)
  }

  /** The value of a grouped body, its underscores dropped. */
  function HexBody(b: string): (r: Option<nat>)
    ensures r.Some? <==> HexGrouped(b)
    ensures r.Some? ==> |Undigits(b)| <= |b| && HexDigits(Undigits(b)) == r
  {
    if HexGrouped(b) then UndigitsHex(b); HexDigits(Undigits(b)) else None
  }

  /** The text after an optional leading sign. */
  function Unsigned(t: string): (u: string)
    ensures |u| <= |t|
  {
    if t != [] && (t[0] == '+' || t[0] == '-') then t[1..] else t
  }

  /** The text after an optional `0x` or `0X` prefix and one underscore
      right after it. */
  function Unprefixed(u: string): (b: string)
    ensures |b| <= |u|
  {
    if |u| >= 2 && u[0] == '0' && (u[1] == 'x' || u[1] == 'X') then
      if |u| >= 3 && u[2] == '_' then u[3..] else u[2..]
    else u
  }

  /** Hex digits in groups joined by single underscores, with a digit at
      each end. */
  predicate HexGrouped(s: string)
  {
    && s != [] && HexDigit(s[0]).Some? && HexDigit(s[|s| - 1]).Some?
    && forall k :: 0 <= k < |s| ==> HexGroupChar(s, k)
  }

  /** Character `k` is a hex digit, or an underscore between two of them. */
  predicate HexGroupChar(s: string, k: nat)
    requires k < |s|
  {
    || HexDigit(s[k]).Some?
    || (s[k] == '_' && 0 < k < |s| - 1 && HexDigit(s[k - 1]).Some? && HexDigit(s[k + 1]).Some?)
  }

  /** `HexDigits` reads exactly the strings made only of hex digits. */
  lemma {:induction false} HexDigitsDefined(s: string)
    ensures HexDigits(s).Some? <==> forall k :: 0 <= k < |s| ==> HexDigit(s[k]).Some?
    decreases |s|
  {
    if s != [] {
      var init := s[..|s| - 1];
      HexDigitsDefined(init);
      assert forall k :: 0 <= k < |init| ==> init[k] == s[k];
    }
  }

  /** Dropping the underscores of a grouped body leaves hex digits only. */
  lemma UndigitsHex(s: string)
    requires HexGrouped(s)
    ensures |Undigits(s)| <= |s| && HexDigits(Undigits(s)).Some?
  {
    forall k | 0 <= k < |s|
      ensures HexDigit(s[k]).Some? || s[k] == '_'
    {
      assert HexGroupChar(s, k);
    }
    UndigitsHexChars(s);
    HexDigitsDefined(Undigits(s));
  }

  lemma {:induction false} UndigitsHexChars(s: string)
    requires forall k :: 0 <= k < |s| ==> HexDigit(s[k]).Some? || s[k] == '_'
    ensures |Undigits(s)| <= |s| && forall k :: 0 <= k < |Undigits(s)| ==> HexDigit(Undigits(s)[k]).Some?
  {
    if s != [] {
      UndigitsHexChars(s[1..]);
    }
  }

  /** One character that is not a hex digit spoils the whole string. */
  lemma HexDigitsRefuse(s: string, k: nat)
    requires k < |s| && HexDigit(s[k]) == None
    ensures HexDigits(s) == None
  {
    HexDigitsDefined(s);
  }

  /** A hex digit is neither whitespace, a sign, an underscore nor the `x`
      of a prefix. */
  lemma HexDigitPlain(c: char)
    requires HexDigit(c).Some?
    ensures !IsSpace(c) && c != '+' && c != '-' && c != '_' && c != 'x' && c != 'X'
  {
  }

  /** A string of bare hex digits is its own grouped body. */
  lemma BareHex(s: string)
    requires s != [] && HexDigits(s).Some?
    ensures Unsigned(s) == s && Unprefixed(s) == s && HexBody(s) == HexDigits(s)
    ensures !IsSpace(s[0]) && !IsSpace(s[|s| - 1])
  {
    HexDigitsDefined(s);
    HexDigitPlain(s[0]);
    HexDigitPlain(s[|s| - 1]);
    BareUnsigned(s);
    BareGrouped(s);
    BareUndigits(s);
  }

  lemma BareUnsigned(s: string)
    requires s != [] && forall k :: 0 <= k < |s| ==> HexDigit(s[k]).Some?
    ensures Unsigned(s) == s && Unprefixed(s) == s
  {
    HexDigitPlain(s[0]);
    if |s| >= 2 {
      HexDigitPlain(s[1]);
    }
  }

  lemma BareGrouped(s: string)
    requires s != [] && forall k :: 0 <= k < |s| ==> HexDigit(s[k]).Some?
    ensures HexGrouped(s)
  {
    forall k | 0 <= k < |s|
      ensures HexGroupChar(s, k)
    {
    }
  }

  lemma BareUndigits(s: string)
    requires forall k :: 0 <= k < |s| ==> HexDigit(s[k]).Some?
    ensures Undigits(s) == s
  {
    forall k | 0 <= k < |s|
      ensures s[k] != '_'
    {
      HexDigitPlain(s[k]);
    }
    UndigitsPlain(s);
  }  /** Text with no whitespace at its ends is read as it stands. */
  lemma PyHexTrimmed(s: string)
    requires s != [] && !IsSpace(s[0]) && !IsSpace(s[|s| - 1])
    ensures PyHex(s) == SignedHex(s)
  {
    StripTrimmed(s);
  }

  lemma StripTrimmed(s: string)
    requires s != [] && !IsSpace(s[0]) && !IsSpace(s[|s| - 1])
    ensures Text.Strip(s) == s
  {
  }

  /** Wherever the bare digit reader succeeds, `int(_, 16)` reads the same
      value. */
  lemma HexDigitsArePyHex(s: string)
    requires s != [] && HexDigits(s).Some?
    ensures PyHex(s) == Some(HexDigits(s).value as int)
  {
    BareHex(s);
    PyHexTrimmed(s);
  }

  /** `int(_, 16)` also reads what bare digits refuse: a minus sign, */
  lemma PyHexMinus(b: string)
    requires b != [] && HexDigits(b).Some?
    ensures PyHex(['-'] + b) == Some(-(HexDigits(b).value as int)) && HexDigits(['-'] + b) == None
  {
    SignedBare('-', b);
    SignedEnds('-', b);
    PyHexTrimmed(['-'] + b);
    HexDigitsRefuse(['-'] + b, 0);
  }

  /** a plus sign, */
  lemma PyHexPlus(b: string)
    requires b != [] && HexDigits(b).Some?
    ensures PyHex(['+'] + b) == Some(HexDigits(b).value as int) && HexDigits(['+'] + b) == None
  {
    SignedBare('+', b);
    SignedEnds('+', b);
    PyHexTrimmed(['+'] + b);
    HexDigitsRefuse(['+'] + b, 0);
  }
  lemma SignedBare(sign: char, b: string)
    requires (sign == '+' || sign == '-') && b != [] && HexDigits(b).Some?
    ensures SignedHex([sign] + b) == Some(if sign == '-' then -(HexDigits(b).value as int) else HexDigits(b).value)
  {
    var s := [sign] + b;
    assert s[1..] == b;
    assert Unsigned(s) == b;
    BareHex(b);
    var v := HexDigits(b).value;
    assert HexBody(Unprefixed(Unsigned(s))) == Some(v);
    assert SignedHex(s) == Some(if s[0] == '-' then -(v as int) else v);
  }
  /** Text that starts with a sign and ends in a hex digit has no
      whitespace at its ends. */
  lemma SignedEnds(sign: char, b: string)
    requires (sign == '+' || sign == '-') && b != [] && HexDigits(b).Some?
    ensures var s := [sign] + b; !IsSpace(s[0]) && !IsSpace(s[|s| - 1])
  {
    HexDigitsDefined(b);
    HexDigitPlain(b[|b| - 1]);
    var s := [sign] + b;
    assert s[|s| - 1] == b[|b| - 1];
  }
  /** single underscores between digits, */
  lemma PyHexGrouped(a: string, b: string)
    requires a != [] && HexDigits(a).Some? && b != [] && HexDigits(b).Some?
    ensures HexDigits(a + b).Some? && PyHex(a + "_" + b) == Some(HexDigits(a + b).value as int)
    ensures HexDigits(a + "_" + b) == None
  {
    var s := a + "_" + b;
    SignedGrouped(a, b);
    PyHexTrimmed(s);
    HexDigitsRefuse(s, |a|);
  }

  lemma SignedGrouped(a: string, b: string)
    requires a != [] && HexDigits(a).Some? && b != [] && HexDigits(b).Some?
    ensures var s := a + "_" + b; !IsSpace(s[0]) && !IsSpace(s[|s| - 1])
    ensures HexDigits(a + b).Some? && SignedHex(a + "_" + b) == Some(HexDigits(a + b).value as int)
  {
    var s := a + "_" + b;
    BareHex(a);
    BareHex(b);
    assert s[0] == a[0] && s[|s| - 1] == b[|b| - 1];
    Joined(a, b);
    UndigitsHex(s);
    var v := HexDigits(a + b).value;
    assert HexBody(Unprefixed(Unsigned(s))) == Some(v);
    assert SignedHex(s) == Some(v);
  }
  /** Two runs of bare hex digits joined by one underscore form a grouped
      body, read as the two runs side by side. */
  lemma Joined(a: string, b: string)
    requires a != [] && HexDigits(a).Some? && b != [] && HexDigits(b).Some?
    ensures var s := a + "_" + b;
            Unsigned(s) == s && Unprefixed(s) == s && HexGrouped(s) && Undigits(s) == a + b
  {
    var s := a + "_" + b;
    HexDigitsDefined(a);
    HexDigitsDefined(b);
    HexDigitPlain(a[0]);
    assert s[0] == a[0];
    if |a| == 1 {
      assert s[1] == '_';
    } else {
      HexDigitPlain(a[1]);
      assert s[1] == a[1];
    }
    HexGroupedJoin(a, b);
    BareUndigits(a);
    BareUndigits(b);
    UndigitsSplit(a, b);
  }

  lemma HexGroupedJoin(a: string, b: string)
    requires a != [] && forall k :: 0 <= k < |a| ==> HexDigit(a[k]).Some?
    requires b != [] && forall k :: 0 <= k < |b| ==> HexDigit(b[k]).Some?
    ensures HexGrouped(a + "_" + b)
  {
    var s := a + "_" + b;
    forall k | 0 <= k < |s|
      ensures HexGroupChar(s, k)
    {
      if k < |a| {
        assert s[k] == a[k];
      } else if k > |a| {
        assert s[k] == b[k - |a| - 1];
      } else {
        assert s[k - 1] == a[|a| - 1] && s[k + 1] == b[0];
      }
    }
  }

  /** Dropping the one underscore between two bare runs joins them. */
  lemma {:induction false} UndigitsSplit(a: string, b: string)
    requires forall k :: 0 <= k < |a| ==> a[k] != '_'
    requires forall k :: 0 <= k < |b| ==> b[k] != '_'
    ensures Undigits(a + "_" + b) == a + b
    decreases |a|
  {
    if a == [] {
      assert ("_" + b)[1..] == b;
      UndigitsPlain(b);
    } else {
      assert (a + "_" + b)[1..] == a[1..] + "_" + b;
      UndigitsSplit(a[1..], b);
    }
  }

  /** and a `0x` prefix, which one underscore may follow. */
  lemma PyHexPrefixed(p: string, b: string)
    requires (p == "0x" || p == "0x_") && b != [] && HexDigits(b).Some?
    ensures PyHex(p + b) == Some(HexDigits(b).value as int) && HexDigits(p + b) == None
  {
    SignedPrefixed(p, b);
    PrefixedEnds(p, b);
    PyHexTrimmed(p + b);
    HexDigitsRefuse(p + b, 1);
  }

  lemma SignedPrefixed(p: string, b: string)
    requires (p == "0x" || p == "0x_") && b != [] && HexDigits(b).Some?
    ensures SignedHex(p + b) == Some(HexDigits(b).value as int)
  {
    var s := p + b;
    assert s[0] == '0' && s[1] == 'x';
    assert Unsigned(s) == s;
    assert Unprefixed(s) == b by {
      if p == "0x" {
        BareFirst(b);
        assert s[2] == b[0] && s[2..] == b;
      } else {
        assert s[2] == '_' && s[3..] == b;
      }
    }
    BareHex(b);
    var v := HexDigits(b).value;
    assert HexBody(Unprefixed(Unsigned(s))) == Some(v);
    assert SignedHex(s) == Some(v);
  }

  /** Bare hex digits do not start with an underscore. */
  lemma BareFirst(b: string)
    requires b != [] && HexDigits(b).Some?
    ensures b[0] != '_'
  {
    HexDigitsDefined(b);
    HexDigitPlain(b[0]);
  }  /** Text that starts with the prefix and ends in a hex digit has no
      whitespace at its ends, and its second character is no digit. */
  lemma PrefixedEnds(p: string, b: string)
    requires (p == "0x" || p == "0x_") && b != [] && HexDigits(b).Some?
    ensures var s := p + b; !IsSpace(s[0]) && !IsSpace(s[|s| - 1]) && HexDigit(s[1]) == None
  {
    HexDigitsDefined(b);
    HexDigitPlain(b[|b| - 1]);
    var s := p + b;
    assert s[0] == '0' && s[1] == 'x' && s[|s| - 1] == b[|b| - 1];
  }
  /** `-ffff` reads as -65535 where bare digits read nothing, */
  lemma PyHexSignedExample(b: string, minus: string)
    requires b == "ffff" && minus == ['-'] + b
    ensures PyHex(minus) == Some(-65535) && HexDigits(minus) == None
  {
    assert HexDigits(b) == Some(65535) by {
      assert b[..3] == "fff" && "fff"[..2] == "ff" && "ff"[..1] == "f" && "f"[..0] == [];
    }
    PyHexMinus(b);
  }

  /** `f_ff0` as 65520, */
  lemma PyHexGroupedExample(a: string, b: string, grouped: string)
    requires a == "f" && b == "ff0" && grouped == a + "_" + b
    ensures PyHex(grouped) == Some(65520) && HexDigits(grouped) == None
  {
    assert a + b == "fff0";
    assert HexDigits(a + b) == Some(65520) by {
      assert "fff0"[..3] == "fff" && "fff"[..2] == "ff" && "ff"[..1] == "f" && "f"[..0] == [];
    }
    assert HexDigits(a) == Some(15) by { assert a[..0] == []; }
    assert HexDigits(b) == Some(4080) by {
      assert b[..2] == "ff" && "ff"[..1] == "f" && "f"[..0] == [];
    }
    PyHexGrouped(a, b);
  }

  /** and `0x1f2` as 498. */
  lemma PyHexPrefixedExample(p: string, b: string, prefixed: string)
    requires p == "0x" && b == "1f2" && prefixed == p + b
    ensures PyHex(prefixed) == Some(498) && HexDigits(prefixed) == None
  {
    assert HexDigits(b) == Some(498) by {
      assert b[..2] == "1f" && "1f"[..1] == "1" && "1"[..0] == [];
    }
    PyHexPrefixed(p, b);
  }

  /** Doubled, leading or trailing underscores, and a prefix with nothing
      after it, are the `ValueError`. */
  lemma PyHexRefuses(doubled: string, leading: string, trailing: string, bare: string)
    requires doubled == "f__f" && leading == "_f" && trailing == "f_" && bare == "0x"
    ensures PyHex(doubled) == None && PyHex(leading) == None && PyHex(trailing) == None && PyHex(bare) == None
  {
    assert Text.Strip(doubled) == doubled && Text.Strip(leading) == leading && Text.Strip(trailing) == trailing;
    assert Text.Strip(bare) == bare;
    assert Unprefixed(Unsigned(doubled)) == doubled;
    assert !HexGrouped(doubled) by { assert !HexGroupChar(doubled, 1); }
    assert Unprefixed(Unsigned(leading)) == leading && Unprefixed(Unsigned(trailing)) == trailing;
    assert Unprefixed(Unsigned(bare)) == [];
  }

  function Pow16(k: nat): nat
  {
    if k == 0 then 1 else 16 * Pow16(k - 1)
  }

  lemma {:induction false} Pow16Monotone(j: nat, k: nat)
    requires j <= k
    ensures Pow16(j) <= Pow16(k)
    decreases k
  {
    if j < k {
      Pow16Monotone(j, k - 1);
    }
  }

  /** `k` hex digits stand for less than `16^k`. */
  lemma {:induction false} HexBound(s: string)
    requires HexDigits(s).Some?
    ensures HexDigits(s).value < Pow16(|s|)
    decreases |s|
  {
    if s != [] {
      HexBound(s[..|s| - 1]);
    }
  }

  /** Whatever `int(_, 16)` reads from `k` characters is less than `16^k`
      either side of zero. */
  lemma PyHexBound(s: string)
    requires PyHex(s).Some?
    ensures -(Pow16(|s|) as int) < PyHex(s).value < Pow16(|s|)
  {
    var body := Unprefixed(Unsigned(Text.Strip(s)));
    HexBound(Undigits(body));
    Pow16Monotone(|Undigits(body)|, |s|);
  }

  /** `dir_map[int(c)]`: the digits 0 to 3 give R, D, L and U; any other
      character fails, either in `int` or in the lookup. */
  function DirCode(c: char): (d: Option<Dir>)
    ensures d.Some? <==> '0' <= c <= '3'
  {
    match c
    case '0' => Some(R)
    case '1' => Some(D)
    case '2' => Some(L)
    case '3' => Some(U)
    case _ => None
  }

  /** `s` without its leading characters from `cs`. */
  function TrimStart(s: string, cs: set<char>): (t: string)
    ensures t == [] || t[0] !in cs
    decreases |s|
  {
    if s != [] && s[0] in cs then TrimStart(s[1..], cs) else s
  }

  /** `s` without its trailing characters from `cs`. */
  function TrimEnd(s: string, cs: set<char>): (t: string)
    ensures t == [] || t[|t| - 1] !in cs
    decreases |s|
  {
    if s != [] && s[|s| - 1] in cs then TrimEnd(s[..|s| - 1], cs) else s
  }

  /** Python's `s.strip(chars)`. */
  function Strip(s: string, cs: set<char>): string
  {
    TrimEnd(TrimStart(s, cs), cs)
  }

  const Wrapping: set<char> := {'(', ')', '#'}

  /** `parse_input` on one line of the plan: the third field, stripped of
      `(`, `)` and `#`, holds the distance in its first five hex digits and
      the direction in its sixth character. */
  function Decode(line: string): (r: Option<Instruction>)
    ensures r.Some? ==> r.value.amt < 0x100000
  {
    var parts := Split(line, ' ');
    if |parts| < 3 then None
    else
      var h := Strip(parts[2], Wrapping);
      if |h| < 6 then None
      else
        match (PyHex(h[..5]), DirCode(h[5]))
        case (Some(amt), Some(d)) =>
          if amt < 0 then None
          else PyHexBound(h[..5]); Some(Instruction(d, amt))
        case _ => None
  }

  function HexChar(v: nat): (c: char)
    requires v < 16
    ensures HexDigit(c) == Some(v) && c !in Wrapping && c != ' '
  {
    if v < 10 then '0' + v as char else 'a' + (v - 10) as char
  }

  /** The `k` lower-case hex digits of `n`, most significant first. */
  function HexString(n: nat, k: nat): (s: string)
    ensures |s| == k && forall i :: 0 <= i < k ==> s[i] !in Wrapping && s[i] != ' '
  {
    if k == 0 then [] else HexString(n / 16, k - 1) + [HexChar(n % 16)]
  }

  lemma {:induction false} HexDigitsString(n: nat, k: nat)
    requires n < Pow16(k)
    ensures HexDigits(HexString(n, k)) == Some(n)
    decreases k
  {
    if k > 0 {
      var s := HexString(n, k);
      assert s[..|s| - 1] == HexString(n / 16, k - 1);
      HexDigitsString(n / 16, k - 1);
    }
  }

  function DirChar(d: Dir): (c: char)
    ensures DirCode(c) == Some(d) && c !in Wrapping && c != ' '
  {
    match d
    case R => '0'
    case D => '1'
    case L => '2'
    case U => '3'
  }

  /** The colour field that encodes `i`, as the puzzle writes it. */
  function Colour(i: Instruction): (s: string)
    requires i.amt < 0x100000
    ensures ' ' !in s
  {
    "(#" + HexString(i.amt, 5) + [DirChar(i.dir)] + ")"
  }

  lemma SplitThree(a: string, b: string, c: string)
    requires ' ' !in a && ' ' !in b && ' ' !in c
    ensures Split(a + " " + b + " " + c, ' ') == [a, b, c]
  {
    var rest := b + [' '] + c;
    var line := a + [' '] + rest;
    assert a + " " + b + " " + c == line;
    assert line[|a|] == ' ';
    BeforeAfterJoined(a, ' ', rest);
    assert Split(line, ' ') == [a] + Split(rest, ' ');
    assert rest[|b|] == ' ';
    BeforeAfterJoined(b, ' ', c);
    assert Split(rest, ' ') == [b] + Split(c, ' ');
  }

  lemma StripColour(i: Instruction)
    requires i.amt < 0x100000
    ensures Strip(Colour(i), Wrapping) == HexString(i.amt, 5) + [DirChar(i.dir)]
  {
    var c := Colour(i);
    var h := HexString(i.amt, 5) + [DirChar(i.dir)];
    assert c[0] == '(' && c[1..][0] == '#';
    assert c[1..][1..] == h + ")";
    assert (h + ")")[0] == h[0] && h[0] !in Wrapping;
    assert TrimStart(c[1..][1..], Wrapping) == h + ")";
    assert TrimStart(c, Wrapping) == h + ")";
    assert (h + ")")[..|h|] == h;
    assert TrimEnd(h + ")", Wrapping) == TrimEnd(h, Wrapping);
  }

  /** Decoding a line whose third field is the colour of `i` gives back `i`,
      whatever the first two fields say. */
  lemma DecodeColour(a: string, b: string, i: Instruction)
    requires ' ' !in a && ' ' !in b && i.amt < 0x100000
    ensures Decode(a + " " + b + " " + Colour(i)) == Some(i)
  {
    SplitThree(a, b, Colour(i));
    StripColour(i);
    var h := HexString(i.amt, 5) + [DirChar(i.dir)];
    assert h[..5] == HexString(i.amt, 5);
    HexDigitsString(i.amt, 5);
    HexDigitsArePyHex(h[..5]);
  }
  /** A hex digit is no separator and no wrapping. */
  lemma BareField(h: string)
    requires HexDigits(h).Some?
    ensures ' ' !in h && forall k :: 0 <= k < |h| ==> h[k] !in Wrapping
  {
    HexDigitsDefined(h);
  }

  /** The colour field `(#h)` strips to `h` when `h` neither starts nor ends
      with wrapping. */
  lemma StripField(h: string)
    requires h != [] && h[0] !in Wrapping && h[|h| - 1] !in Wrapping
    ensures Strip("(#" + h + ")", Wrapping) == h
  {
    var c := "(#" + h + ")";
    assert c[0] == '(' && c[1..][0] == '#';
    assert c[1..][1..] == h + ")";
    assert (h + ")")[0] == h[0];
    assert TrimStart(c[1..][1..], Wrapping) == h + ")";
    assert TrimStart(c, Wrapping) == h + ")";
    assert (h + ")")[..|h|] == h;
    assert TrimEnd(h + ")", Wrapping) == TrimEnd(h, Wrapping);
  }

  /** A colour whose distance is written with a `0x` prefix, `(#0xhhhd)`:
      read as the three digits after it. */
  lemma DecodePrefixed(a: string, b: string, digits: string, d: Dir)
    requires ' ' !in a && ' ' !in b && |digits| == 3 && HexDigits(digits).Some?
    ensures Decode(a + " " + b + " " + ("(#0x" + digits + [DirChar(d)] + ")")) == Some(Instruction(d, HexDigits(digits).value))
  {
    var h := "0x" + digits + [DirChar(d)];
    var c := "(#0x" + digits + [DirChar(d)] + ")";
    assert c == "(#" + h + ")";
    FieldEnds("0x", digits, d, h);
    DecodeField(a, b, h, c);
    assert h[..5] == "0x" + digits && h[5] == DirChar(d);
    PyHexPrefixed("0x", digits);
    DecodeReads(a + " " + b + " " + c, h, HexDigits(digits).value, d);
  }
  /** A field made of a prefix without separators or wrapping, hex digits
      and a direction code has neither at its ends. */
  lemma FieldEnds(p: string, digits: string, d: Dir, h: string)
    requires p != [] && ' ' !in p && p[0] !in Wrapping && HexDigits(digits).Some? && h == p + digits + [DirChar(d)]
    ensures ' ' !in h && h != [] && h[0] !in Wrapping && h[|h| - 1] !in Wrapping
  {
    BareField(digits);
    assert h[0] == p[0] && h[|h| - 1] == DirChar(d);
  }

  /** A line whose colour field strips to `h`, with distance `amt` and
      direction `d` in it, decodes to that instruction if the distance is not
      negative. */
  lemma DecodeReads(line: string, h: string, amt: int, d: Dir)
    requires |Split(line, ' ')| >= 3 && Strip(Split(line, ' ')[2], Wrapping) == h && |h| >= 6
    requires PyHex(h[..5]) == Some(amt) && DirCode(h[5]) == Some(d)
    ensures amt < 0 ==> Decode(line) == None
    ensures amt >= 0 ==> Decode(line) == Some(Instruction(d, amt))
  {
  }  /** The line `a b (#h)` splits into its three fields, and the third strips
      to `h`, when `h` holds no separator and neither starts nor ends with
      wrapping. */
  lemma DecodeField(a: string, b: string, h: string, c: string)
    requires ' ' !in a && ' ' !in b && ' ' !in h && h != [] && h[0] !in Wrapping && h[|h| - 1] !in Wrapping
    requires c == "(#" + h + ")"
    ensures Split(a + " " + b + " " + c, ' ') == [a, b, c] && Strip(c, Wrapping) == h
  {
    assert ' ' !in c;
    SplitThree(a, b, c);
    StripField(h);
  }




  /** The corners of part two's polygon: the position before each
      instruction, starting at the origin. */
  function Vertices(ins: seq<Instruction>): (vs: seq<Pos>)
    ensures |vs| == |ins|
  {
    seq(|ins|, k requires 0 <= k < |ins| => Travel((0, 0), ins[..k]))
  }

  /** Following an instruction moves its distance times its unit vector. */
  lemma AheadScaled(p: Pos, d: Dir, k: int)
    ensures Ahead(p, d, k) == (p.0 + k * Vector(d).0, p.1 + k * Vector(d).1)
  {
  }

  /** One term of the shoelace sum. */
  function Cross(p: Pos, q: Pos): int
  {
    p.0 * q.1 - q.0 * p.1
  }

  /** The index after `i` among `n`, wrapping round as `(i + 1) % n`. */
  function Next(i: nat, n: nat): (j: nat)
    requires i < n
    ensures j < n && j == (i + 1) % n
  {
    if i + 1 < n then i + 1 else 0
  }

  /** The shoelace terms, each vertex paired with the next, the last with
      the first. */
  function Terms(v: seq<Pos>): (t: seq<int>)
    ensures |t| == |v|
  {
    seq(|v|, i requires 0 <= i < |v| => Cross(v[i], v[Next(i, |v|)]))
  }

  /** Twice the polygon's area. */
  function TwiceArea(v: seq<Pos>): nat
  {
    Abs(Sum(Terms(v)))
  }

  /** `get_shoelace_area`: the shoelace sum accumulated term by term, then
      halved. */
  method ShoelaceArea(vertices: seq<Pos>) returns (area: real)
    ensures area == TwiceArea(vertices) as real / 2.0
  {
    var n := |vertices|;
    var acc := 0;
    for i := 0 to n
      invariant acc == Sum(Terms(vertices)[..i])
    {
      var j := (i + 1) % n;
      acc := acc + vertices[i].0 * vertices[j].1;
      acc := acc - vertices[j].0 * vertices[i].1;
      assert Terms(vertices)[..i + 1][..i] == Terms(vertices)[..i];
    }
    assert Terms(vertices)[..n] == Terms(vertices);
    area := Abs(acc) as real / 2.0;
  }

  /** The lagoon's volume by Pick's theorem: the interior points
      `A - b/2 + 1` plus the `b` boundary points, truncated to an integer
      (the value is positive, so truncating is flooring). */
  function Volume(ins: seq<Instruction>): (total: int)
    ensures total >= 1
  {
    var area := TwiceArea(Vertices(ins)) as real / 2.0;
    var boundary := Perimeter(ins) as real;
    var interior := area - boundary / 2.0 + 1.0;
    (interior + boundary).Floor
  }

  /** Part two's `dig`: collects the vertices, sums the distances, and
      applies the shoelace formula and Pick's theorem. */
  method DigArea(ins: seq<Instruction>) returns (total: int)
    ensures total == Volume(ins)
  {
    var location := (0, 0);
    var vertices := [];
    for i := 0 to |ins|
      invariant location == Travel((0, 0), ins[..i])
      invariant vertices == Vertices(ins)[..i]
    {
      vertices := vertices + [location];
      var d, amt := ins[i].dir, ins[i].amt;
      var v := Vector(d);
      AheadScaled(location, d, amt);
      location := (location.0 + amt * v.0, location.1 + amt * v.1);
      assert ins[..i + 1][..i] == ins[..i];
    }
    assert Vertices(ins)[..|ins|] == Vertices(ins);
    var boundary := Perimeter(ins);
    var area := ShoelaceArea(vertices);
    var interior := area - boundary as real / 2.0 + 1.0;
    var totalArea := interior + boundary as real;
    total := totalArea.Floor;
  }

  /** A `w` by `h` rectangle, dug clockwise from its top-left corner. */
  function RectanglePlan(w: nat, h: nat): seq<Instruction>
  {
    [Instruction(R, w), Instruction(D, h), Instruction(L, w), Instruction(U, h)]
  }

  lemma RectangleVertices(w: nat, h: nat)
    ensures Vertices(RectanglePlan(w, h)) == [(0, 0), (0, w), (h, w), (h, 0)]
  {
    var ins := RectanglePlan(w, h);
    assert ins[..0] == [] && ins[..1] == [ins[0]];
    assert ins[..2][..1] == ins[..1] && ins[..3][..2] == ins[..2];
    assert Travel((0, 0), ins[..1]) == (0, w);
    assert Travel((0, 0), ins[..2]) == (h, w);
    assert Travel((0, 0), ins[..3]) == (h, 0);
  }

  lemma RectangleArea(w: nat, h: nat)
    ensures TwiceArea(Vertices(RectanglePlan(w, h))) == 2 * (h * w)
  {
    RectangleVertices(w, h);
    var v := Vertices(RectanglePlan(w, h));
    var a := h * w;
    var t := Terms(v);
    assert t[0] == Cross((0, 0), (0, w)) == 0;
    assert t[1] == Cross((0, w), (h, w)) == -a;
    assert t[2] == Cross((h, w), (h, 0)) == -a;
    assert t[3] == Cross((h, 0), (0, 0)) == 0;
    assert t[..1][..0] == [] && t[..2][..1] == t[..1] && t[..3][..2] == t[..2] && t[..4][..3] == t[..3] && t[..4] == t;
    assert Sum(t[..1]) == 0;
    assert Sum(t[..2]) == -a;
    assert Sum(t[..3]) == -2 * a;
    assert Sum(t) == -2 * a;
  }

  /** A `w` by `h` rectangle holds `(w + 1) * (h + 1)` cubic metres: the
      trench is one cell wide. */
  lemma Rectangle(w: nat, h: nat)
    ensures Volume(RectanglePlan(w, h)) == (w + 1) * (h + 1)
  {
    var ins := RectanglePlan(w, h);
    RectangleArea(w, h);
    assert ins[..3][..2] == ins[..2] && ins[..2][..1] == ins[..1] && ins[..1][..0] == [] && ins[..4] == ins;
    assert Perimeter(ins[..1]) == w;
    assert Perimeter(ins[..2]) == w + h;
    assert Perimeter(ins[..3]) == 2 * w + h;
    assert Perimeter(ins) == 2 * w + 2 * h;
    var a := h * w;
    assert TwiceArea(Vertices(ins)) as real / 2.0 == a as real;
    assert (w + 1) * (h + 1) == a + w + h + 1;
  }

  // The volume does not depend on where a closed plan starts.

  /** `xs` rotated left by `s`: start at element `s` and wrap round. */
  function Rotate<T>(xs: seq<T>, s: nat): (r: seq<T>)
    requires s <= |xs|
    ensures |r| == |xs|
  {
    xs[s..] + xs[..s]
  }

  /** Every position moved by `t`. */
  function Translate(v: seq<Pos>, t: Pos): (r: seq<Pos>)
    ensures |r| == |v|
  {
    seq(|v|, i requires 0 <= i < |v| => (v[i].0 + t.0, v[i].1 + t.1))
  }

  /** Moving both points of a term changes it by amounts that telescope
      round the polygon. */
  lemma CrossShift(p: Pos, q: Pos, t: Pos)
    ensures Cross((p.0 + t.0, p.1 + t.1), (q.0 + t.0, q.1 + t.1)) == Cross(p, q) + t.0 * (q.1 - p.1) - t.1 * (q.0 - p.0)
  {
    var a, b := t.0, t.1;
    assert (p.0 + a) * (q.1 + b) == p.0 * q.1 + p.0 * b + a * q.1 + a * b;
    assert (q.0 + a) * (p.1 + b) == q.0 * p.1 + q.0 * b + a * p.1 + a * b;
    assert a * (q.1 - p.1) == a * q.1 - a * p.1;
    assert b * (q.0 - p.0) == b * q.0 - b * p.0;
  }

  lemma Distribute(a: int, x: int, y: int)
    ensures a * x + a * y == a * (x + y)
  {
  }

  /** The first `i` terms of a moved polygon: the original terms plus the
      telescoped differences up to vertex `i` (vertex `|v|` is vertex 0). */
  lemma {:induction false} TranslatePrefix(v: seq<Pos>, t: Pos, i: nat)
    requires 0 < |v| && i <= |v|
    ensures var w := v[if i < |v| then i else 0];
      Sum(Terms(Translate(v, t))[..i]) == Sum(Terms(v)[..i]) + t.0 * (w.1 - v[0].1) - t.1 * (w.0 - v[0].0)
  {
    var n := |v|;
    if i > 0 {
      TranslatePrefix(v, t, i - 1);
      var tv, tt := Terms(v), Terms(Translate(v, t));
      assert tv[..i][..i - 1] == tv[..i - 1];
      assert tt[..i][..i - 1] == tt[..i - 1];
      var p, q := v[i - 1], v[Next(i - 1, n)];
      assert q == v[if i < n then i else 0];
      CrossShift(p, q, t);
      assert tt[i - 1] == Cross(p, q) + t.0 * (q.1 - p.1) - t.1 * (q.0 - p.0);
      assert Sum(tt[..i]) == Sum(tt[..i - 1]) + tt[i - 1];
      assert Sum(tv[..i]) == Sum(tv[..i - 1]) + Cross(p, q);
      Distribute(t.0, p.1 - v[0].1, q.1 - p.1);
      Distribute(t.1, p.0 - v[0].0, q.0 - p.0);
    }
  }

  /** The shoelace sum is unchanged by moving the polygon. */
  lemma {:induction false} TranslateSum(v: seq<Pos>, t: Pos)
    ensures Sum(Terms(Translate(v, t))) == Sum(Terms(v))
  {
    if v != [] {
      TranslatePrefix(v, t, |v|);
      assert Terms(v)[..|v|] == Terms(v);
      assert Terms(Translate(v, t))[..|v|] == Terms(Translate(v, t));
    }
  }

  /** The shoelace terms of a rotated polygon are its terms rotated. */
  lemma {:induction false} RotateTerms(v: seq<Pos>, s: nat)
    requires s <= |v|
    ensures Terms(Rotate(v, s)) == Rotate(Terms(v), s)
  {
    var n := |v|;
    var r := Rotate(v, s);
    forall k | 0 <= k < n
      ensures Terms(r)[k] == Rotate(Terms(v), s)[k]
    {
      var i := if k < n - s then k + s else k + s - n;
      var j := if Next(k, n) < n - s then Next(k, n) + s else Next(k, n) + s - n;
      assert r[k] == v[i];
      assert r[Next(k, n)] == v[j];
      assert j == Next(i, n);
      assert Rotate(Terms(v), s)[k] == Terms(v)[i];
    }
  }

  /** A sum does not depend on where it starts. */
  lemma {:induction false} RotateSum(xs: seq<int>, s: nat)
    requires s <= |xs|
    ensures Sum(Rotate(xs, s)) == Sum(xs)
  {
    SumAppend(xs[s..], xs[..s]);
    SumAppend(xs[..s], xs[s..]);
    assert xs == xs[..s] + xs[s..];
  }

  /** Before the plan wraps round, vertex `k` of the rotated plan is
      vertex `s + k` of the original, moved back by the `s`-th vertex. */
  lemma {:induction false} VertexBeforeWrap(ins: seq<Instruction>, s: nat, k: nat)
    requires s + k < |ins|
    ensures var t := Travel((0, 0), ins[..s]); var p := Travel((0, 0), ins[..s + k]);
      Travel((0, 0), Rotate(ins, s)[..k]) == (p.0 - t.0, p.1 - t.1)
  {
    var t := Travel((0, 0), ins[..s]);
    assert Rotate(ins, s)[..k] == ins[s..s + k];
    assert ins[..s + k] == ins[..s] + ins[s..s + k];
    TravelAppend((0, 0), ins[..s], ins[s..s + k]);
    TravelFrom(t, ins[s..s + k]);
  }

  /** After it wraps round, vertex `k` of the rotated plan is vertex
      `k - (|ins| - s)` of the original, moved back the same way, since the
      plan is closed. */
  lemma {:induction false} VertexAfterWrap(ins: seq<Instruction>, s: nat, k: nat)
    requires s <= |ins| && |ins| - s <= k < |ins| && Travel((0, 0), ins) == (0, 0)
    ensures var t := Travel((0, 0), ins[..s]); var p := Travel((0, 0), ins[..k - (|ins| - s)]);
      Travel((0, 0), Rotate(ins, s)[..k]) == (p.0 - t.0, p.1 - t.1)
  {
    var t := Travel((0, 0), ins[..s]);
    assert ins == ins[..s] + ins[s..];
    TravelAppend((0, 0), ins[..s], ins[s..]);
    TravelFrom(t, ins[s..]);
    var e := Travel((0, 0), ins[s..]);
    assert e == (-t.0, -t.1);
    var k' := k - (|ins| - s);
    assert Rotate(ins, s)[..k] == ins[s..] + ins[..k'];
    TravelAppend((0, 0), ins[s..], ins[..k']);
    TravelFrom(e, ins[..k']);
    assert Travel((0, 0), Rotate(ins, s)[..k]) == Travel(e, ins[..k']);
  }

  /** Vertex `k` of the plan started at instruction `s`, on either side of
      the wrap. */
  lemma {:induction false} VertexRotate(ins: seq<Instruction>, s: nat, t: Pos, k: nat)
    requires s <= |ins| && Travel((0, 0), ins) == (0, 0) && t == Travel((0, 0), ins[..s]) && k < |ins|
    ensures Vertices(Rotate(ins, s))[k] == Translate(Rotate(Vertices(ins), s), (-t.0, -t.1))[k]
  {
    var n := |ins|;
    var v := Vertices(ins);
    var j := if k < n - s then s + k else k - (n - s);
    assert Rotate(v, s)[k] == v[j];
    assert v[j] == Travel((0, 0), ins[..j]);
    if k < n - s {
      VertexBeforeWrap(ins, s, k);
    } else {
      VertexAfterWrap(ins, s, k);
    }
    assert Vertices(Rotate(ins, s))[k] == Travel((0, 0), Rotate(ins, s)[..k]);
  }

  /** The route of a closed plan started at instruction `s` is the original
      route rotated, and moved so that it starts at the origin. */
  lemma {:induction false} VerticesRotate(ins: seq<Instruction>, s: nat, t: Pos)
    requires s <= |ins| && Travel((0, 0), ins) == (0, 0) && t == Travel((0, 0), ins[..s])
    ensures Vertices(Rotate(ins, s)) == Translate(Rotate(Vertices(ins), s), (-t.0, -t.1))
  {
    var w, moved := Vertices(Rotate(ins, s)), Translate(Rotate(Vertices(ins), s), (-t.0, -t.1));
    forall k | 0 <= k < |ins|
      ensures w[k] == moved[k]
    {
      VertexRotate(ins, s, t, k);
    }
  }

  lemma {:induction false} PerimeterRotate(ins: seq<Instruction>, s: nat)
    requires s <= |ins|
    ensures Perimeter(Rotate(ins, s)) == Perimeter(ins)
  {
    PerimeterAppend(ins[s..], ins[..s]);
    PerimeterAppend(ins[..s], ins[s..]);
    assert ins == ins[..s] + ins[s..];
  }

  /** Rotating a polygon's vertex list and moving it keeps its shoelace
      sum. */
  lemma ShoelaceRotateTranslate(v: seq<Pos>, s: nat, t: Pos)
    requires s <= |v|
    ensures Sum(Terms(Translate(Rotate(v, s), t))) == Sum(Terms(v))
  {
    TranslateSum(Rotate(v, s), t);
    RotateTerms(v, s);
    RotateSum(Terms(v), s);
  }

  lemma {:induction false} AreaRotate(ins: seq<Instruction>, s: nat)
    requires s <= |ins| && Travel((0, 0), ins) == (0, 0)
    ensures TwiceArea(Vertices(Rotate(ins, s))) == TwiceArea(Vertices(ins))
  {
    var t := Travel((0, 0), ins[..s]);
    var v := Vertices(ins);
    VerticesRotate(ins, s, t);
    ShoelaceRotateTranslate(v, s, (-t.0, -t.1));
  }

  /** Starting a closed plan at any of its instructions digs the same
      volume. */
  lemma {:induction false} VolumeRotate(ins: seq<Instruction>, s: nat)
    requires s <= |ins| && Travel((0, 0), ins) == (0, 0)
    ensures Volume(Rotate(ins, s)) == Volume(ins)
  {
    AreaRotate(ins, s);
    PerimeterRotate(ins, s);
  }
}
