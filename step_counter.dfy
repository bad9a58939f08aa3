/** Day 21 (D21/d21p1.py, D21/d21p2.py): the garden plots an elf can
    stand on after exactly so many steps. Each step replaces the set of
    positions by every plot next to one of them that is not a rock (`#`).
    In part one the map is bounded; in part two it repeats in every
    direction, and a position carries the offset of its copy of the map
    (its tile) besides its cell inside the map. */
module StepCounter {

  import opened Wrappers
  import opened Arith

  /** The map, one row of characters per line. */
  type Garden = seq<string>

  type Pos = (int, int)

  /** The source indexes every row with bounds from the first one. */
  predicate Rectangular(g: Garden)
  {
    |g| > 0 && forall r :: 0 <= r < |g| ==> |g[r]| == |g[0]|
  }

  // Finding the start.

  /** The first `S` in reading order: the first row holding one, and the
      first `S` in that row. */
  function StartFrom(g: Garden, row: nat): (r: Option<Pos>)
    requires row <= |g|
    ensures r.Some? ==> row <= r.value.0 < |g| && 0 <= r.value.1 < |g[r.value.0]| && g[r.value.0][r.value.1] == 'S'
    ensures r.Some? ==> forall i, j :: row <= i < r.value.0 && 0 <= j < |g[i]| ==> g[i][j] != 'S'
    ensures r.Some? ==> forall j :: 0 <= j < r.value.1 ==> g[r.value.0][j] != 'S'
    ensures r.None? ==> forall i, j :: row <= i < |g| && 0 <= j < |g[i]| ==> g[i][j] != 'S'
    decreases |g| - row
  {
    if row == |g| then None
    else if 'S' in g[row] then Some((row, FirstIndex(g[row], 'S')))
    else StartFrom(g, row + 1)
  }

  /** `line.index(c)` for a `c` the line holds. */
  function FirstIndex(line: string, c: char): (k: nat)
    requires c in line
    ensures k < |line| && line[k] == c && forall j :: 0 <= j < k ==> line[j] != c
  {
    if line[0] == c then 0 else 1 + FirstIndex(line[1..], c)
  }

  /** The loop that finds the start in `find_steps`; `None` where the
      source would go on with `None` coordinates and fail. */
  method FindStart(g: Garden) returns (start: Option<Pos>)
    ensures start == StartFrom(g, 0)
  {
    var row := 0;
    while row < |g|
      invariant row <= |g|
      invariant StartFrom(g, row) == StartFrom(g, 0)
    {
      if 'S' in g[row] {
        return Some((row, FirstIndex(g[row], 'S')));
      }
      row := row + 1;
    }
    return None;
  }

  // Part one: the bounded map.

  /** `is_valid_position`: inside the map and not a rock. */
  predicate Valid(g: Garden, p: Pos)
    requires Rectangular(g)
  {
    0 <= p.0 < |g| && 0 <= p.1 < |g[0]| && g[p.0][p.1] != '#'
  }

  /** The four positions one step east, west, south and north. */
  function Neighbours(p: Pos): seq<Pos>
  {
    [(p.0, p.1 + 1), (p.0, p.1 - 1), (p.0 + 1, p.1), (p.0 - 1, p.1)]
  }

  /** The positions one step from `p`. */
  function From(g: Garden, p: Pos): set<Pos>
    requires Rectangular(g)
  {
    set q | q in Neighbours(p) && Valid(g, q)
  }

  /** The positions one step from a set of positions. */
  function Step(g: Garden, cur: set<Pos>): set<Pos>
    requires Rectangular(g)
  {
    set p, q | p in cur && q in From(g, p) :: q
  }

  /** The positions after `k` steps. */
  function Iterate(g: Garden, cur: set<Pos>, k: nat): set<Pos>
    requires Rectangular(g)
  {
    if k == 0 then cur else Step(g, Iterate(g, cur, k - 1))
  }

  /** A walk of `|w| - 1` steps: each position after the first is valid
      and next to the one before. */
  predicate Walk(g: Garden, w: seq<Pos>)
    requires Rectangular(g)
  {
    forall i :: 0 < i < |w| ==> w[i] in From(g, w[i - 1])
  }

  /** After `k` steps the elf stands exactly where a walk of `k` steps
      from a starting position ends. */
  lemma IterateWalks(g: Garden, cur: set<Pos>, k: nat, q: Pos)
    requires Rectangular(g)
    ensures q in Iterate(g, cur, k) <==>
      exists w :: |w| == k + 1 && w[0] in cur && w[k] == q && Walk(g, w)
  {
    if q in Iterate(g, cur, k) {
      var w := WalkTo(g, cur, k, q);
    }
    forall w | |w| == k + 1 && w[0] in cur && w[k] == q && Walk(g, w) {
      WalkEnds(g, cur, w);
    }
  }

  /** A walk of `k` steps to each position reached after `k` steps. */
  lemma {:induction false} WalkTo(g: Garden, cur: set<Pos>, k: nat, q: Pos) returns (w: seq<Pos>)
    requires Rectangular(g) && q in Iterate(g, cur, k)
    ensures |w| == k + 1 && w[0] in cur && w[k] == q && Walk(g, w)
  {
    if k == 0 {
      w := [q];
    } else {
      var p :| p in Iterate(g, cur, k - 1) && q in From(g, p);
      var v := WalkTo(g, cur, k - 1, p);
      WalkSnoc(g, v, q);
      w := v + [q];
    }
  }

  /** Each walk from a starting position ends where the elf can stand
      after its number of steps. */
  lemma {:induction false} WalkEnds(g: Garden, cur: set<Pos>, w: seq<Pos>)
    requires Rectangular(g) && |w| > 0 && w[0] in cur && Walk(g, w)
    ensures w[|w| - 1] in Iterate(g, cur, |w| - 1)
  {
    var k := |w| - 1;
    if k > 0 {
      WalkPrefix(g, w, k);
      WalkEnds(g, cur, w[..k]);
      assert w[k] in From(g, w[k - 1]);
    }
  }

  /** A walk extended by one step is a walk. */
  lemma WalkSnoc(g: Garden, w: seq<Pos>, q: Pos)
    requires Rectangular(g) && Walk(g, w) && |w| > 0 && q in From(g, w[|w| - 1])
    ensures Walk(g, w + [q])
  {
    var w' := w + [q];
    forall i | 0 < i < |w'| ensures w'[i] in From(g, w'[i - 1]) {
      if i < |w| {
        assert w'[i] == w[i] && w'[i - 1] == w[i - 1];
      }
    }
  }

  /** The first `k` positions of a walk are a walk. */
  lemma WalkPrefix(g: Garden, w: seq<Pos>, k: nat)
    requires Rectangular(g) && Walk(g, w) && k <= |w|
    ensures Walk(g, w[..k])
  {
    var v := w[..k];
    forall i | 0 < i < |v| ensures v[i] in From(g, v[i - 1]) {
      assert v[i] == w[i] && v[i - 1] == w[i - 1];
    }
  }

  /** Once no position is left, none comes back. */
  lemma {:induction false} StuckStays(g: Garden, cur: set<Pos>, k: nat, n: nat)
    requires Rectangular(g) && k <= n && Iterate(g, cur, k) == {}
    ensures Iterate(g, cur, n) == {}
  {
    if k < n {
      StuckStays(g, cur, k, n - 1);
      assert Step(g, {}) == {};
    }
  }

  /** Adding one position to a set adds its neighbours to the next step. */
  lemma StepAdd(g: Garden, done: set<Pos>, p: Pos)
    requires Rectangular(g)
    ensures Step(g, done + {p}) == Step(g, done) + From(g, p)
  {
  }

  /** The `for pos in current_positions` loop of part one: every valid
      neighbour of every current position, without repeats. */
  method NextPositions(g: Garden, cur: set<Pos>) returns (next: set<Pos>)
    requires Rectangular(g)
    ensures next == Step(g, cur)
  {
    next := {};
    var rest := cur;
    while rest != {}
      invariant rest <= cur
      invariant next == Step(g, cur - rest)
      decreases |rest|
    {
      var p :| p in rest;
      var ns := Neighbours(p);
      ghost var before := next;
      for k := 0 to 4
        invariant next == before + set q | q in ns[..k] && Valid(g, q)
      {
        var ok := IsValidPosition(g, ns[k]);
        if ok {
          next := next + {ns[k]};
        }
        assert ns[..k + 1] == ns[..k] + [ns[k]];
      }
      assert ns[..4] == ns;
      StepAdd(g, cur - rest, p);
      assert (cur - rest) + {p} == cur - (rest - {p});
      rest := rest - {p};
    }
  }

  /** `is_valid_position`, its tests in the source's order. */
  method IsValidPosition(g: Garden, p: Pos) returns (ok: bool)
    requires Rectangular(g)
    ensures ok == Valid(g, p)
  {
    if p.0 < 0 || p.0 >= |g| {
      return false;
    }
    if p.1 < 0 || p.1 >= |g[0]| {
      return false;
    }
    if g[p.0][p.1] == '#' {
      return false;
    }
    return true;
  }

  /** Part one's `find_steps` with its step limit (64 in the source) as
      `limit`: the number of plots reachable in exactly `limit` steps. The
      loop also stops early once no position is left, which gives the
      same count. */
  method FindSteps(g: Garden, limit: nat) returns (r: Option<nat>)
    requires Rectangular(g) && limit > 0
    ensures r.None? <==> StartFrom(g, 0).None?
    ensures r.Some? ==> r.value == |Iterate(g, {StartFrom(g, 0).value}, limit)|
  {
    var start := FindStart(g);
    if start.None? {
      return None;
    }
    var first := {start.value};
    var current := first;
    var steps := 0;
    while true
      invariant steps < limit && current == Iterate(g, first, steps)
      decreases limit - steps
    {
      var next := NextPositions(g, current);
      current := next;
      steps := steps + 1;
      if next == {} {
        StuckStays(g, first, steps, limit);
        break;
      }
      if steps == limit {
        break;
      }
    }
    return Some(|current|);
  }

  // Part two: the map repeats without end.

  /** A position `(row, col, tile_row, tile_col)` on the repeated map. */
  type Plot = (int, int, int, int)

  /** The cell of a plot lies inside the map. */
  predicate InTile(g: Garden, p: Plot)
    requires Rectangular(g)
  {
    0 <= p.0 < |g| && 0 <= p.1 < |g[0]|
  }

  /** Where the plot lies on the unbounded map. */
  function Abs(g: Garden, p: Plot): Pos
    requires Rectangular(g)
  {
    (p.2 * |g| + p.0, p.3 * |g[0]| + p.1)
  }

  /** The offsets of `update_sub_position`, in its order. */
  function Offset(k: nat): Pos
    requires k < 4
  {
    [(0, 1), (0, -1), (1, 0), (-1, 0)][k]
  }

  /** The plot one step along `Offset(k)`: a cell that leaves the map
      jumps to the opposite edge of the neighbouring tile. */
  function Wrap(g: Garden, p: Plot, k: nat): Plot
    requires Rectangular(g) && k < 4
  {
    var row := p.0 + Offset(k).0;
    var col := p.1 + Offset(k).1;
    var (row', rowTile) :=
      if row < 0 then (|g| - 1, p.2 - 1) else if row >= |g| then (0, p.2 + 1) else (row, p.2);
    var (col', colTile) :=
      if col < 0 then (|g[0]| - 1, p.3 - 1) else if col >= |g[0]| then (0, p.3 + 1) else (col, p.3);
    (row', col', rowTile, colTile)
  }

  /** The plots of the first `k` offsets that are not rocks. */
  function SubMoves(g: Garden, p: Plot, k: nat): seq<Plot>
    requires Rectangular(g) && |g[0]| > 0 && InTile(g, p) && k <= 4
  {
    if k == 0 then []
    else
      var q := Wrap(g, p, k - 1);
      SubMoves(g, p, k - 1) + if g[q.0][q.1] == '#' then [] else [q]
  }

  /** Stepping from a cell inside the map stays inside the map, lands one
      step away on the unbounded map, and keeps the plot exactly when it
      is not a rock. */
  lemma WrapSpec(g: Garden, p: Plot, k: nat)
    requires Rectangular(g) && |g[0]| > 0 && InTile(g, p) && k < 4
    ensures InTile(g, Wrap(g, p, k))
    ensures Abs(g, Wrap(g, p, k)) == (Abs(g, p).0 + Offset(k).0, Abs(g, p).1 + Offset(k).1)
  {
    var q := Wrap(g, p, k);
    var h, w := |g|, |g[0]|;
    assert (p.2 - 1) * h == p.2 * h - h && (p.2 + 1) * h == p.2 * h + h;
    assert (p.3 - 1) * w == p.3 * w - w && (p.3 + 1) * w == p.3 * w + w;
  }

  /** Distinct plots whose cells lie inside the map are distinct places
      on the unbounded map: the same cell on two tiles counts twice. */
  lemma AbsInjective(g: Garden, p: Plot, q: Plot)
    requires Rectangular(g) && InTile(g, p) && InTile(g, q) && Abs(g, p) == Abs(g, q)
    ensures p == q
  {
    SameTile(p.2, q.2, |g|, p.0, q.0);
    SameTile(p.3, q.3, |g[0]|, p.1, q.1);
  }

  /** `a * n + x == b * n + y` with `x` and `y` in `[0, n)` gives `a == b`. */
  lemma SameTile(a: int, b: int, n: int, x: int, y: int)
    requires 0 <= x < n && 0 <= y < n && a * n + x == b * n + y
    ensures a == b && x == y
  {
    assert a * n - b * n == n * (a - b);
    MulSign(n, a - b);
  }

  /** `update_sub_position`: at most four plots, none of them a rock,
      each inside the map. */
  method UpdateSubPosition(g: Garden, p: Plot) returns (next: seq<Plot>)
    requires Rectangular(g) && |g[0]| > 0 && InTile(g, p)
    ensures next == SubMoves(g, p, 4)
  {
    next := [];
    for k := 0 to 4
      invariant next == SubMoves(g, p, k)
    {
      var offset := Offset(k);
      var row := p.0 + offset.0;
      var col := p.1 + offset.1;
      var rowTile := p.2;
      var colTile := p.3;
      if row < 0 {
        row, rowTile := |g| - 1, rowTile - 1;
      } else if row >= |g| {
        row, rowTile := 0, rowTile + 1;
      }
      if col < 0 {
        col, colTile := |g[0]| - 1, colTile - 1;
      } else if col >= |g[0]| {
        col, colTile := 0, colTile + 1;
      }
      if g[row][col] == '#' {
        continue;
      }
      next := next + [(row, col, rowTile, colTile)];
    }
  }

  /** What `update_sub_position` gives: each plot one step from `p` on
      the unbounded map, inside the map and not a rock; and each step
      whose plot is not a rock is there. */
  lemma {:induction false} SubMovesSpec(g: Garden, p: Plot, k: nat, q: Plot)
    requires Rectangular(g) && |g[0]| > 0 && InTile(g, p) && k <= 4
    ensures |SubMoves(g, p, k)| <= k
    ensures q in SubMoves(g, p, k) <==>
      exists j :: 0 <= j < k && q == Wrap(g, p, j) && g[q.0][q.1] != '#'
  {
    if k > 0 {
      SubMovesSpec(g, p, k - 1, q);
      WrapSpec(g, p, k - 1);
    }
  }

  /** `update_position`: the steps from the plot moved to tile (0, 0),
      moved back by the plot's tile offset. */
  function UpdatePosition(g: Garden, p: Plot): seq<Plot>
    requires Rectangular(g) && |g[0]| > 0 && InTile(g, p)
  {
    var sub := SubMoves(g, (p.0, p.1, 0, 0), 4);
    seq(|sub|, i requires 0 <= i < |sub| => (sub[i].0, sub[i].1, sub[i].2 + p.2, sub[i].3 + p.3))
  }

  /** Shifting by the tile offset commutes with stepping, so
      `update_position` steps from the plot itself. */
  lemma {:induction false} UpdatePositionSpec(g: Garden, p: Plot)
    requires Rectangular(g) && |g[0]| > 0 && InTile(g, p)
    ensures UpdatePosition(g, p) == SubMoves(g, p, 4)
  {
    ShiftSubMoves(g, p, 4);
  }

  lemma {:induction false} ShiftSubMoves(g: Garden, p: Plot, k: nat)
    requires Rectangular(g) && |g[0]| > 0 && InTile(g, p) && k <= 4
    ensures var sub := SubMoves(g, (p.0, p.1, 0, 0), k);
      |sub| == |SubMoves(g, p, k)| &&
      forall i :: 0 <= i < |sub| ==> SubMoves(g, p, k)[i] == (sub[i].0, sub[i].1, sub[i].2 + p.2, sub[i].3 + p.3)
  {
    if k > 0 {
      ShiftSubMoves(g, p, k - 1);
    }
  }

  /** The plots one step from `p`. */
  function PlotsFrom(g: Garden, p: Plot): set<Plot>
    requires Rectangular(g) && |g[0]| > 0
  {
    if InTile(g, p) then set q | q in UpdatePosition(g, p) else {}
  }

  /** The plots one step from a set of plots. */
  function Spread(g: Garden, cur: set<Plot>): set<Plot>
    requires Rectangular(g) && |g[0]| > 0
  {
    set p, q | p in cur && q in PlotsFrom(g, p) :: q
  }

  /** The plots after `k` steps. */
  function Unbounded(g: Garden, cur: set<Plot>, k: nat): set<Plot>
    requires Rectangular(g) && |g[0]| > 0
  {
    if k == 0 then cur else Spread(g, Unbounded(g, cur, k - 1))
  }

  /** Starting inside the map, every plot reached keeps its cell inside
      the map. */
  lemma {:induction false} UnboundedInTile(g: Garden, cur: set<Plot>, k: nat)
    requires Rectangular(g) && |g[0]| > 0 && forall p :: p in cur ==> InTile(g, p)
    ensures forall p :: p in Unbounded(g, cur, k) ==> InTile(g, p)
  {
    if k > 0 {
      UnboundedInTile(g, cur, k - 1);
      forall q | q in Unbounded(g, cur, k) ensures InTile(g, q) {
        var p :| p in Unbounded(g, cur, k - 1) && q in PlotsFrom(g, p);
        UpdatePositionSpec(g, p);
        SubMovesSpec(g, p, 4, q);
        var j :| 0 <= j < 4 && q == Wrap(g, p, j) && g[q.0][q.1] != '#';
        WrapSpec(g, p, j);
      }
    }
  }

  lemma SpreadAdd(g: Garden, done: set<Plot>, p: Plot)
    requires Rectangular(g) && |g[0]| > 0
    ensures Spread(g, done + {p}) == Spread(g, done) + PlotsFrom(g, p)
  {
  }

  /** The `for position in current_positions` loop of part two. */
  method NextPlots(g: Garden, cur: set<Plot>) returns (next: set<Plot>)
    requires Rectangular(g) && |g[0]| > 0 && forall p :: p in cur ==> InTile(g, p)
    ensures next == Spread(g, cur)
  {
    next := {};
    var rest := cur;
    while rest != {}
      invariant rest <= cur
      invariant next == Spread(g, cur - rest)
      decreases |rest|
    {
      var p :| p in rest;
      var stepped := UpdatePositionOf(g, p);
      next := next + set q | q in stepped;
      SpreadAdd(g, cur - rest, p);
      assert (cur - rest) + {p} == cur - (rest - {p});
      rest := rest - {p};
    }
  }

  /** `update_position`, with its list comprehension. */
  method UpdatePositionOf(g: Garden, p: Plot) returns (stepped: seq<Plot>)
    requires Rectangular(g) && |g[0]| > 0 && InTile(g, p)
    ensures stepped == UpdatePosition(g, p)
  {
    var sub := UpdateSubPosition(g, (p.0, p.1, 0, 0));
    stepped := seq(|sub|, i requires 0 <= i < |sub| => (sub[i].0, sub[i].1, sub[i].2 + p.2, sub[i].3 + p.3));
  }

  /** Part two's `find_steps` with its step limit (1000 in the source) as
      `limit`: the number of plots of the unbounded map reachable in
      exactly `limit` steps. */
  method FindStepsUnbounded(g: Garden, limit: nat) returns (r: Option<nat>)
    requires Rectangular(g) && |g[0]| > 0 && limit > 0
    ensures r.None? <==> StartFrom(g, 0).None?
    ensures r.Some? ==>
      var s := StartFrom(g, 0).value;
      r.value == |Unbounded(g, {(s.0, s.1, 0, 0)}, limit)|
  {
    var start := FindStart(g);
    if start.None? {
      return None;
    }
    var first := {(start.value.0, start.value.1, 0, 0)};
    var current := first;
    var steps := 0;
    while true
      invariant steps < limit && current == Unbounded(g, first, steps)
      invariant forall p :: p in current ==> InTile(g, p)
      decreases limit - steps
    {
      var next := NextPlots(g, current);
      current := next;
      steps := steps + 1;
      UnboundedInTile(g, first, steps);
      if steps == limit {
        break;
      }
    }
    return Some(|current|);
  }
}
