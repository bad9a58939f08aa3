/** Day 11, cosmic expansion. Part one widens the star map itself, part
    two keeps one expansion factor per row and per column; both sum the
    distances between every pair of galaxies (`#` cells). */
module Galaxies {

  import opened Arith
  import opened Grids

  type Coord = (int, int)

  /** A non-empty map whose rows all have the first row's width: what
      `star_map[0]` and `row[col]` need. */
  predicate Rectangular(g: Grid)
  {
    g != [] && Rect(g, |g[0]|)
  }

  /** `'#' not in row`. */
  predicate FreeRow(row: seq<char>)
  {
    '#' !in row
  }

  /** `'#' not in [row[col] for row in star_map]`. */
  predicate FreeCol(g: Grid, c: nat)
    requires forall r :: 0 <= r < |g| ==> c < |g[r]|
  {
    forall r :: 0 <= r < |g| ==> g[r][c] != '#'
  }

  function RowFlags(g: Grid): (f: seq<bool>)
    ensures |f| == |g|
  {
    seq(|g|, r requires 0 <= r < |g| => FreeRow(g[r]))
  }

  function ColFlags(g: Grid, w: nat): (f: seq<bool>)
    requires Rect(g, w)
    ensures |f| == w
  {
    seq(w, c requires 0 <= c < w => FreeCol(g, c))
  }

  /** How many of the first `n` rows (or columns) are free. */
  function FreeBefore(flags: seq<bool>, n: nat): nat
    requires n <= |flags|
  {
    if n == 0 then 0 else FreeBefore(flags, n - 1) + (if flags[n - 1] then 1 else 0)
  }

  /** Free rows before `i` never outnumber those before a later `j`, so
      `i + FreeBefore(i)` grows strictly. */
  lemma {:induction false} FreeBeforeGrows(flags: seq<bool>, i: nat, j: nat)
    requires i <= j <= |flags|
    ensures FreeBefore(flags, i) <= FreeBefore(flags, j)
    ensures i < j ==> i + FreeBefore(flags, i) < j + FreeBefore(flags, j)
    decreases j
  {
    if i < j {
      FreeBeforeGrows(flags, i, j - 1);
    }
  }

  // Part one: inserting a filler after every free row, then after every
  // free column.

  /** The first `n` items of `xs`, each item whose flag is set followed
      by `fill`. */
  function Spread<T>(xs: seq<T>, flags: seq<bool>, fill: T, n: nat): (s: seq<T>)
    requires n <= |xs| && n <= |flags|
    ensures |s| == n + FreeBefore(flags, n)
  {
    if n == 0 then []
    else Spread(xs, flags, fill, n - 1) + [xs[n - 1]] + (if flags[n - 1] then [fill] else [])
  }

  /** Item `i` lands at `i` plus the number of fillers inserted before it. */
  lemma {:induction false} SpreadAt<T>(xs: seq<T>, flags: seq<bool>, fill: T, n: nat, i: nat)
    requires i < n <= |xs| && n <= |flags|
    ensures i + FreeBefore(flags, i) < |Spread(xs, flags, fill, n)|
    ensures Spread(xs, flags, fill, n)[i + FreeBefore(flags, i)] == xs[i]
  {
    if i < n - 1 {
      SpreadAt(xs, flags, fill, n - 1, i);
      FreeBeforeGrows(flags, i, n - 1);
    }
  }

  /** Every position that does not hold `fill` holds an item of `xs`. */
  lemma {:induction false} SpreadOther<T>(xs: seq<T>, flags: seq<bool>, fill: T, n: nat, p: nat) returns (i: nat)
    requires n <= |xs| && n <= |flags|
    requires p < |Spread(xs, flags, fill, n)| && Spread(xs, flags, fill, n)[p] != fill
    ensures i < n && p == i + FreeBefore(flags, i)
  {
    var s' := Spread(xs, flags, fill, n - 1);
    if p < |s'| {
      i := SpreadOther(xs, flags, fill, n - 1, p);
    } else {
      i := n - 1;
    }
  }

  function Dots(n: nat): seq<char>
  {
    seq(n, _ => '.')
  }

  /** The map after the row loop of `expand_map`. */
  function TallMap(g: Grid): Grid
    requires Rectangular(g)
  {
    Spread(g, RowFlags(g), Dots(|g[0]|), |g|)
  }

  /** Every row of the taller map is a row of `g` or a row of dots. */
  lemma TallRows(g: Grid, p: nat) returns (r: nat)
    requires Rectangular(g) && p < |TallMap(g)|
    ensures TallMap(g)[p] == Dots(|g[0]|) || (r < |g| && p == r + FreeBefore(RowFlags(g), r) && TallMap(g)[p] == g[r])
  {
    r := 0;
    if TallMap(g)[p] != Dots(|g[0]|) {
      r := SpreadOther(g, RowFlags(g), Dots(|g[0]|), |g|, p);
      SpreadAt(g, RowFlags(g), Dots(|g[0]|), |g|, r);
    }
  }

  lemma TallRect(g: Grid)
    requires Rectangular(g)
    ensures Rect(TallMap(g), |g[0]|)
  {
    forall p | 0 <= p < |TallMap(g)| ensures |TallMap(g)[p]| == |g[0]| {
      var r := TallRows(g, p);
    }
  }

  /** The inserted rows hold no galaxy, so the free columns stay free. */
  lemma TallColFlags(g: Grid)
    requires Rectangular(g)
    ensures Rect(TallMap(g), |g[0]|)
    ensures ColFlags(TallMap(g), |g[0]|) == ColFlags(g, |g[0]|)
  {
    TallRect(g);
    var t, w := TallMap(g), |g[0]|;
    forall c | 0 <= c < w ensures FreeCol(t, c) == FreeCol(g, c) {
      if FreeCol(g, c) {
        forall p | 0 <= p < |t| ensures t[p][c] != '#' {
          var r := TallRows(g, p);
        }
      } else {
        var r :| 0 <= r < |g| && g[r][c] == '#';
        SpreadAt(g, RowFlags(g), Dots(w), |g|, r);
        assert t[r + FreeBefore(RowFlags(g), r)] == g[r];
      }
    }
  }

  /** `expand_map` of part one: every galaxy-free row is followed by a
      row of dots, then every galaxy-free column by a column of dots. */
  function Expanded(g: Grid): (e: Grid)
    requires Rectangular(g)
  {
    TallRect(g);
    var t, w := TallMap(g), |g[0]|;
    var flags := ColFlags(t, w);
    seq(|t|, p requires 0 <= p < |t| => Spread(t[p], flags, '.', w))
  }

  /** Inserting `fill` right after the first item of `rest`. */
  lemma InsertAfter<T>(s: seq<T>, rest: seq<T>, fill: T)
    requires rest != []
    ensures (s + rest)[..|s| + 1] + [fill] + (s + rest)[|s| + 1..] == s + [rest[0]] + [fill] + rest[1..]
  {
    assert (s + rest)[..|s| + 1] == s + [rest[0]];
    assert (s + rest)[|s| + 1..] == rest[1..];
  }

  /** `row.insert(at, '.')` on every row. */
  method InsertColumn(rows: Grid, at: nat) returns (rows': Grid)
    requires forall p :: 0 <= p < |rows| ==> at <= |rows[p]|
    ensures |rows'| == |rows|
    ensures forall p :: 0 <= p < |rows| ==> rows'[p] == rows[p][..at] + ['.'] + rows[p][at..]
  {
    rows' := rows;
    for p := 0 to |rows|
      invariant |rows'| == |rows|
      invariant forall q :: 0 <= q < p ==> rows'[q] == rows[q][..at] + ['.'] + rows[q][at..]
      invariant forall q :: p <= q < |rows| ==> rows'[q] == rows[q]
    {
      rows' := rows'[p := rows'[p][..at] + ['.'] + rows'[p][at..]];
    }
  }

  /** The row loop of `expand_map`. */
  method StackRows(g: Grid) returns (tall: Grid)
    requires Rectangular(g)
    ensures tall == TallMap(g)
  {
    tall := [];
    for i := 0 to |g|
      invariant tall == Spread(g, RowFlags(g), Dots(|g[0]|), i)
    {
      tall := tall + [g[i]];
      if '#' !in g[i] {
        tall := tall + [Dots(|g[i]|)];
      }
    }
  }

  /** `expand_map` of part one. */
  method ExpandMap(g: Grid) returns (e: Grid)
    requires Rectangular(g)
    ensures e == Expanded(g)
  {
    var tall := StackRows(g);
    TallRect(g);
    e := WidenColumns(tall, |g[0]|);
  }

  /** The column loop of `expand_map`, inserting into every row. */
  method WidenColumns(tall: Grid, w: nat) returns (e: Grid)
    requires Rect(tall, w)
    ensures |e| == |tall|
    ensures forall p :: 0 <= p < |tall| ==> e[p] == Spread(tall[p], ColFlags(tall, w), '.', w)
  {
    ghost var flags := ColFlags(tall, w);
    e := tall;
    var added := 0;
    WidenStart(tall, flags);
    for col := 0 to w
      invariant added == FreeBefore(flags, col)
      invariant Widened(tall, flags, e, col)
    {
      e, added := WidenColumn(tall, flags, e, col, added);
    }
    WidenDone(tall, flags, e);
  }

  /** One round of the column loop: column `col` gets a `.` column after
      it when no galaxy is in it. */
  method WidenColumn(tall: Grid, ghost flags: seq<bool>, e: Grid, col: nat, added: nat) returns (e': Grid, added': nat)
    requires Rect(tall, |flags|) && flags == ColFlags(tall, |flags|) && col < |flags|
    requires added == FreeBefore(flags, col) && Widened(tall, flags, e, col)
    ensures added' == FreeBefore(flags, col + 1) && Widened(tall, flags, e', col + 1)
  {
    assert flags[col] == FreeCol(tall, col);
    if FreeCol(tall, col) {
      added' := added + 1;
      WidenRoom(tall, flags, e, col);
      e' := InsertColumn(e, col + added');
      WidenInsert(tall, flags, e, col, e');
    } else {
      added' := added;
      e' := e;
      WidenKeep(tall, flags, e, col);
    }
  }

  lemma WidenStart(tall: Grid, flags: seq<bool>)
    requires Rect(tall, |flags|)
    ensures Widened(tall, flags, tall, 0)
  {
    forall p | 0 <= p < |tall| ensures tall[p] == Spread(tall[p], flags, '.', 0) + tall[p][0..] {
      assert tall[p][0..] == tall[p];
    }
  }

  lemma WidenDone(tall: Grid, flags: seq<bool>, e: Grid)
    requires Rect(tall, |flags|) && Widened(tall, flags, e, |flags|)
    ensures |e| == |tall| && forall p :: 0 <= p < |tall| ==> e[p] == Spread(tall[p], flags, '.', |flags|)
  {
    forall p | 0 <= p < |tall| ensures e[p] == Spread(tall[p], flags, '.', |flags|) {
      var sp := Spread(tall[p], flags, '.', |flags|);
      assert e[p] == sp + tall[p][|flags|..];
      assert tall[p][|flags|..] == [];
      assert sp + [] == sp;
    }
  }

  /** The column loop's invariant: the first `col` columns of every row
      are spread, the rest still as they were. */
  ghost predicate Widened(tall: Grid, flags: seq<bool>, e: Grid, col: nat)
    requires Rect(tall, |flags|) && col <= |flags|
  {
    |e| == |tall| && forall p :: 0 <= p < |tall| ==> e[p] == Spread(tall[p], flags, '.', col) + tall[p][col..]
  }

  lemma WidenRoom(tall: Grid, flags: seq<bool>, e: Grid, col: nat)
    requires Rect(tall, |flags|) && col < |flags| && Widened(tall, flags, e, col)
    ensures forall p :: 0 <= p < |e| ==> col + FreeBefore(flags, col + 1) <= |e[p]|
  {
    forall p | 0 <= p < |e| ensures col + FreeBefore(flags, col + 1) <= |e[p]| {
      assert |e[p]| == |Spread(tall[p], flags, '.', col)| + |tall[p][col..]|;
    }
  }

  lemma WidenKeep(tall: Grid, flags: seq<bool>, e: Grid, col: nat)
    requires Rect(tall, |flags|) && col < |flags| && Widened(tall, flags, e, col) && !flags[col]
    ensures Widened(tall, flags, e, col + 1)
  {
    forall p | 0 <= p < |tall| ensures e[p] == Spread(tall[p], flags, '.', col + 1) + tall[p][col + 1..] {
      SpreadStep(tall[p], flags, col);
    }
  }

  lemma WidenInsert(tall: Grid, flags: seq<bool>, e: Grid, col: nat, e': Grid)
    requires Rect(tall, |flags|) && col < |flags| && Widened(tall, flags, e, col) && flags[col]
    requires |e'| == |e|
    requires forall p :: 0 <= p < |e| ==> col + FreeBefore(flags, col + 1) <= |e[p]|
    requires forall p :: 0 <= p < |e| ==>
      e'[p] == e[p][..col + FreeBefore(flags, col + 1)] + ['.'] + e[p][col + FreeBefore(flags, col + 1)..]
    ensures Widened(tall, flags, e', col + 1)
  {
    forall p | 0 <= p < |tall| ensures e'[p] == Spread(tall[p], flags, '.', col + 1) + tall[p][col + 1..] {
      SpreadStep(tall[p], flags, col);
    }
  }

  /** One more column of a row: a free column gets a `.` inserted right
      after it, at `col` plus the number of free columns up to it. */
  lemma SpreadStep(row: seq<char>, flags: seq<bool>, col: nat)
    requires col < |row| == |flags|
    ensures var s, at := Spread(row, flags, '.', col) + row[col..], col + FreeBefore(flags, col + 1);
      if flags[col] then at <= |s| && s[..at] + ['.'] + s[at..] == Spread(row, flags, '.', col + 1) + row[col + 1..]
      else s == Spread(row, flags, '.', col + 1) + row[col + 1..]
  {
    assert row[col..] == [row[col]] + row[col + 1..];
    if flags[col] {
      InsertAfter(Spread(row, flags, '.', col), row[col..], '.');
    }
  }

  // The galaxies, in row-major order.

  /** The galaxies among the first `k` cells of row `r`. */
  function RowGalaxies(row: seq<char>, r: int, k: nat): seq<Coord>
    requires k <= |row|
  {
    if k == 0 then [] else RowGalaxies(row, r, k - 1) + (if row[k - 1] == '#' then [(r, k - 1)] else [])
  }

  /** The galaxies of the first `n` rows, row by row. */
  function GalaxiesUpTo(g: Grid, n: nat): seq<Coord>
    requires n <= |g|
  {
    if n == 0 then [] else GalaxiesUpTo(g, n - 1) + RowGalaxies(g[n - 1], n - 1, |g[n - 1]|)
  }

  /** What `get_galaxy_coords` lists. */
  function Galaxies(g: Grid): seq<Coord>
  {
    GalaxiesUpTo(g, |g|)
  }

  predicate IsGalaxy(g: Grid, x: Coord)
  {
    0 <= x.0 < |g| && 0 <= x.1 < |g[x.0]| && g[x.0][x.1] == '#'
  }

  /** Row-major order on coordinates. */
  predicate Precedes(a: Coord, b: Coord)
  {
    a.0 < b.0 || (a.0 == b.0 && a.1 < b.1)
  }

  predicate Increasing(xs: seq<Coord>)
  {
    forall i, j :: 0 <= i < j < |xs| ==> Precedes(xs[i], xs[j])
  }

  lemma IncreasingAppend(xs: seq<Coord>, ys: seq<Coord>)
    requires Increasing(xs) && Increasing(ys)
    requires forall i, j :: 0 <= i < |xs| && 0 <= j < |ys| ==> Precedes(xs[i], ys[j])
    ensures Increasing(xs + ys)
  {
    forall i, j | 0 <= i < j < |xs + ys| ensures Precedes((xs + ys)[i], (xs + ys)[j]) {
      if j < |xs| {
      } else if i < |xs| {
        assert (xs + ys)[j] == ys[j - |xs|];
      } else {
        assert (xs + ys)[i] == ys[i - |xs|] && (xs + ys)[j] == ys[j - |xs|];
      }
    }
  }

  /** A row's galaxies are its `#` cells, left to right. */
  lemma {:induction false} RowGalaxiesSpec(row: seq<char>, r: int, k: nat)
    requires k <= |row|
    ensures Increasing(RowGalaxies(row, r, k))
    ensures forall x :: x in RowGalaxies(row, r, k) <==> x.0 == r && 0 <= x.1 < k && row[x.1] == '#'
  {
    if k > 0 {
      RowGalaxiesSpec(row, r, k - 1);
      var xs := RowGalaxies(row, r, k - 1);
      var ys: seq<Coord> := if row[k - 1] == '#' then [(r, k - 1)] else [];
      forall i, j | 0 <= i < |xs| && 0 <= j < |ys| ensures Precedes(xs[i], ys[j]) {
        assert xs[i] in xs;
      }
      IncreasingAppend(xs, ys);
    }
  }

  /** `get_galaxy_coords` lists exactly the `#` cells, in row-major order. */
  lemma {:induction false} GalaxiesSpec(g: Grid, n: nat)
    requires n <= |g|
    ensures Increasing(GalaxiesUpTo(g, n))
    ensures forall x :: x in GalaxiesUpTo(g, n) <==> IsGalaxy(g, x) && x.0 < n
  {
    if n > 0 {
      GalaxiesSpec(g, n - 1);
      RowGalaxiesSpec(g[n - 1], n - 1, |g[n - 1]|);
      var xs, ys := GalaxiesUpTo(g, n - 1), RowGalaxies(g[n - 1], n - 1, |g[n - 1]|);
      forall i, j | 0 <= i < |xs| && 0 <= j < |ys| ensures Precedes(xs[i], ys[j]) {
        assert xs[i] in xs && ys[j] in ys;
      }
      IncreasingAppend(xs, ys);
    }
  }

  /** Two increasing lists with the same members are the same list. */
  lemma {:induction false} SameIncreasing(xs: seq<Coord>, ys: seq<Coord>)
    requires Increasing(xs) && Increasing(ys)
    requires forall x :: x in xs <==> x in ys
    ensures xs == ys
    decreases |xs|
  {
    assert |ys| == 0 || ys[0] in ys;
    if xs != [] {
      assert xs[0] in xs;
      assert ys != [] && ys[0] in ys;
      forall x ensures x in xs[1..] <==> x in ys[1..] {
        if x in xs[1..] {
          var i :| 0 <= i < |xs| - 1 && xs[1..][i] == x;
          assert Precedes(xs[0], xs[i + 1]);
          assert x in ys;
          var j :| 0 <= j < |ys| && ys[j] == x;
          assert ys[1..][j - 1] == x;
        }
        if x in ys[1..] {
          var j :| 0 <= j < |ys| - 1 && ys[1..][j] == x;
          assert Precedes(ys[0], ys[j + 1]);
          assert x in xs;
          var i :| 0 <= i < |xs| && xs[i] == x;
          assert xs[1..][i - 1] == x;
        }
      }
      SameIncreasing(xs[1..], ys[1..]);
      assert xs == [xs[0]] + xs[1..] && ys == [ys[0]] + ys[1..];
    }
  }

  /** The method behind `get_galaxy_coords`. */
  method GalaxyCoords(g: Grid) returns (coords: seq<Coord>)
    ensures coords == Galaxies(g)
  {
    coords := [];
    for r := 0 to |g|
      invariant coords == GalaxiesUpTo(g, r)
    {
      for c := 0 to |g[r]|
        invariant coords == GalaxiesUpTo(g, r) + RowGalaxies(g[r], r, c)
      {
        if g[r][c] == '#' {
          coords := coords + [(r, c)];
        }
      }
    }
  }

  // Where the galaxies go.

  predicate Fits(x: Coord, rows: nat, cols: nat)
  {
    0 <= x.0 < rows && 0 <= x.1 < cols
  }

  /** A cell's place once the free rows and columns before it doubled. */
  function Shift(rf: seq<bool>, cf: seq<bool>, x: Coord): Coord
    requires Fits(x, |rf|, |cf|)
  {
    (x.0 + FreeBefore(rf, x.0), x.1 + FreeBefore(cf, x.1))
  }

  predicate AllFit(gs: seq<Coord>, rows: nat, cols: nat)
  {
    forall i :: 0 <= i < |gs| ==> Fits(gs[i], rows, cols)
  }

  function Shifted(gs: seq<Coord>, rf: seq<bool>, cf: seq<bool>): (s: seq<Coord>)
    requires AllFit(gs, |rf|, |cf|)
    ensures |s| == |gs|
  {
    seq(|gs|, i requires 0 <= i < |gs| => Shift(rf, cf, gs[i]))
  }

  lemma ShiftPreserves(rf: seq<bool>, cf: seq<bool>, a: Coord, b: Coord)
    requires Fits(a, |rf|, |cf|) && Fits(b, |rf|, |cf|) && Precedes(a, b)
    ensures Precedes(Shift(rf, cf, a), Shift(rf, cf, b))
  {
    if a.0 < b.0 {
      FreeBeforeGrows(rf, a.0, b.0);
    } else {
      FreeBeforeGrows(cf, a.1, b.1);
    }
  }

  lemma ShiftedIncreasing(gs: seq<Coord>, rf: seq<bool>, cf: seq<bool>)
    requires AllFit(gs, |rf|, |cf|) && Increasing(gs)
    ensures Increasing(Shifted(gs, rf, cf))
  {
    forall i, j | 0 <= i < j < |gs| ensures Precedes(Shifted(gs, rf, cf)[i], Shifted(gs, rf, cf)[j]) {
      ShiftPreserves(rf, cf, gs[i], gs[j]);
    }
  }

  /** A galaxy of `g` is a galaxy of the expanded map at its shifted place. */
  lemma ExpandedKeeps(g: Grid, x: Coord)
    requires Rectangular(g) && IsGalaxy(g, x)
    ensures Fits(x, |g|, |g[0]|)
    ensures IsGalaxy(Expanded(g), Shift(RowFlags(g), ColFlags(g, |g[0]|), x))
  {
    var w := |g[0]|;
    TallColFlags(g);
    var t := TallMap(g);
    var y := Shift(RowFlags(g), ColFlags(g, w), x);
    SpreadAt(g, RowFlags(g), Dots(w), |g|, x.0);
    assert t[y.0] == g[x.0];
    SpreadAt(g[x.0], ColFlags(g, w), '.', w, x.1);
    assert Expanded(g)[y.0] == Spread(g[x.0], ColFlags(g, w), '.', w);
  }

  /** Every galaxy of the expanded map is a shifted galaxy of `g`. */
  lemma ExpandedComes(g: Grid, y: Coord) returns (x: Coord)
    requires Rectangular(g) && IsGalaxy(Expanded(g), y)
    ensures IsGalaxy(g, x) && Fits(x, |g|, |g[0]|) && y == Shift(RowFlags(g), ColFlags(g, |g[0]|), x)
  {
    var w := |g[0]|;
    TallColFlags(g);
    TallRect(g);
    var t := TallMap(g);
    var cf := ColFlags(g, w);
    var row := Spread(t[y.0], cf, '.', w);
    assert Expanded(g)[y.0] == row;
    var c := SpreadOther(t[y.0], cf, '.', w, y.1);
    SpreadAt(t[y.0], cf, '.', w, c);
    var r := TallRows(g, y.0);
    assert t[y.0] != Dots(w) by {
      assert t[y.0][c] == '#';
    }
    x := (r, c);
  }

  /** Expanding moves each galaxy to its shifted place and keeps their
      row-major order. */
  lemma ExpandedGalaxies(g: Grid)
    requires Rectangular(g)
    ensures AllFit(Galaxies(g), |g|, |g[0]|)
    ensures Galaxies(Expanded(g)) == Shifted(Galaxies(g), RowFlags(g), ColFlags(g, |g[0]|))
  {
    var w := |g[0]|;
    var rf, cf := RowFlags(g), ColFlags(g, w);
    var e := Expanded(g);
    GalaxiesSpec(g, |g|);
    GalaxiesSpec(e, |e|);
    var gs := Galaxies(g);
    forall i | 0 <= i < |gs| ensures Fits(gs[i], |g|, w) {
      assert gs[i] in gs;
    }
    var s := Shifted(gs, rf, cf);
    ShiftedIncreasing(gs, rf, cf);
    forall y ensures y in Galaxies(e) <==> y in s {
      if y in Galaxies(e) {
        var x := ExpandedComes(g, y);
        assert x in gs;
        var i :| 0 <= i < |gs| && gs[i] == x;
        assert s[i] == y;
      }
      if y in s {
        var i :| 0 <= i < |s| && s[i] == y;
        assert gs[i] in gs;
        ExpandedKeeps(g, gs[i]);
      }
    }
    SameIncreasing(Galaxies(e), s);
  }

  /** Expansion keeps the number of galaxies. */
  lemma ExpansionKeepsGalaxies(g: Grid)
    requires Rectangular(g)
    ensures |Galaxies(Expanded(g))| == |Galaxies(g)|
  {
    ExpandedGalaxies(g);
  }

  // Distances.

  function Manhattan(a: Coord, b: Coord): nat
  {
    Abs(a.0 - b.0) + Abs(a.1 - b.1)
  }

  /** The distances from `a` to each of `rest`. */
  function DistancesFrom(a: Coord, rest: seq<Coord>): int
  {
    if rest == [] then 0 else Manhattan(a, rest[0]) + DistancesFrom(a, rest[1..])
  }

  /** `get_sum_shortest_paths` of part one: every pair `i < j` once. */
  function PathSum(gs: seq<Coord>): int
  {
    if gs == [] then 0 else DistancesFrom(gs[0], gs[1..]) + PathSum(gs[1..])
  }

  /** `expand_map` of part two: `k` for every galaxy-free row or column,
      1 for the others. */
  function Factors(k: int, flags: seq<bool>): (f: seq<int>)
    ensures |f| == |flags|
  {
    seq(|flags|, i requires 0 <= i < |flags| => if flags[i] then k else 1)
  }

  /** Part two's distance: the factors of the rows, then of the columns,
      from the smaller coordinate up to the larger one. */
  function FactorDistance(a: Coord, b: Coord, rows: seq<int>, cols: seq<int>): int
    requires Fits(a, |rows|, |cols|) && Fits(b, |rows|, |cols|)
  {
    Sum(rows[Min(a.0, b.0)..Max(a.0, b.0)]) + Sum(cols[Min(a.1, b.1)..Max(a.1, b.1)])
  }

  function FactorDistancesFrom(a: Coord, rest: seq<Coord>, rows: seq<int>, cols: seq<int>): int
    requires Fits(a, |rows|, |cols|) && AllFit(rest, |rows|, |cols|)
  {
    if rest == [] then 0
    else FactorDistance(a, rest[0], rows, cols) + FactorDistancesFrom(a, rest[1..], rows, cols)
  }

  /** `get_sum_shortest_paths` of part two. */
  function FactorPathSum(gs: seq<Coord>, rows: seq<int>, cols: seq<int>): int
    requires AllFit(gs, |rows|, |cols|)
  {
    if gs == [] then 0
    else FactorDistancesFrom(gs[0], gs[1..], rows, cols) + FactorPathSum(gs[1..], rows, cols)
  }

  /** The factors of `[lo, hi)` add up to its length plus `k - 1` for
      each free row in it. */
  lemma {:induction false} FactorSum(k: int, flags: seq<bool>, lo: nat, hi: nat)
    requires lo <= hi <= |flags|
    ensures Sum(Factors(k, flags)[lo..hi]) == (hi - lo) + (k - 1) * (FreeBefore(flags, hi) - FreeBefore(flags, lo))
    decreases hi
  {
    var f := Factors(k, flags);
    if hi > lo {
      FactorSum(k, flags, lo, hi - 1);
      assert f[lo..hi][..hi - 1 - lo] == f[lo..hi - 1];
      var a, b := FreeBefore(flags, hi - 1) - FreeBefore(flags, lo), if flags[hi - 1] then 1 else 0;
      assert Sum(f[lo..hi]) == Sum(f[lo..hi - 1]) + (1 + (k - 1) * b);
      assert (k - 1) * (a + b) == (k - 1) * a + (k - 1) * b;
    } else {
      assert f[lo..hi] == [];
    }
  }

  /** With factor 2, part two's distance is part one's distance between
      the shifted places. */
  lemma DoubledDistance(a: Coord, b: Coord, rf: seq<bool>, cf: seq<bool>)
    requires Fits(a, |rf|, |cf|) && Fits(b, |rf|, |cf|)
    ensures FactorDistance(a, b, Factors(2, rf), Factors(2, cf)) == Manhattan(Shift(rf, cf, a), Shift(rf, cf, b))
  {
    FactorSum(2, rf, Min(a.0, b.0), Max(a.0, b.0));
    FactorSum(2, cf, Min(a.1, b.1), Max(a.1, b.1));
    FreeBeforeGrows(rf, Min(a.0, b.0), Max(a.0, b.0));
    FreeBeforeGrows(cf, Min(a.1, b.1), Max(a.1, b.1));
  }

  /** With factor 1, part two's distance is the plain Manhattan distance. */
  lemma UnitDistance(a: Coord, b: Coord, rf: seq<bool>, cf: seq<bool>)
    requires Fits(a, |rf|, |cf|) && Fits(b, |rf|, |cf|)
    ensures FactorDistance(a, b, Factors(1, rf), Factors(1, cf)) == Manhattan(a, b)
  {
    FactorSum(1, rf, Min(a.0, b.0), Max(a.0, b.0));
    FactorSum(1, cf, Min(a.1, b.1), Max(a.1, b.1));
  }

  lemma {:induction false} DoubledDistancesFrom(a: Coord, rest: seq<Coord>, rf: seq<bool>, cf: seq<bool>)
    requires Fits(a, |rf|, |cf|) && AllFit(rest, |rf|, |cf|)
    ensures FactorDistancesFrom(a, rest, Factors(2, rf), Factors(2, cf)) == DistancesFrom(Shift(rf, cf, a), Shifted(rest, rf, cf))
  {
    if rest != [] {
      DoubledDistance(a, rest[0], rf, cf);
      DoubledDistancesFrom(a, rest[1..], rf, cf);
      assert Shifted(rest, rf, cf)[1..] == Shifted(rest[1..], rf, cf);
    }
  }

  lemma {:induction false} UnitDistancesFrom(a: Coord, rest: seq<Coord>, rf: seq<bool>, cf: seq<bool>)
    requires Fits(a, |rf|, |cf|) && AllFit(rest, |rf|, |cf|)
    ensures FactorDistancesFrom(a, rest, Factors(1, rf), Factors(1, cf)) == DistancesFrom(a, rest)
  {
    if rest != [] {
      UnitDistance(a, rest[0], rf, cf);
      UnitDistancesFrom(a, rest[1..], rf, cf);
    }
  }

  /** Part two with factor 2 sums the same distances as part one over the
      shifted galaxies. */
  lemma {:induction false} DoubledPathSum(gs: seq<Coord>, rf: seq<bool>, cf: seq<bool>)
    requires AllFit(gs, |rf|, |cf|)
    ensures FactorPathSum(gs, Factors(2, rf), Factors(2, cf)) == PathSum(Shifted(gs, rf, cf))
  {
    if gs != [] {
      DoubledDistancesFrom(gs[0], gs[1..], rf, cf);
      DoubledPathSum(gs[1..], rf, cf);
      assert Shifted(gs, rf, cf)[1..] == Shifted(gs[1..], rf, cf);
    }
  }

  /** Part two with factor 1 is the sum of plain Manhattan distances. */
  lemma {:induction false} UnitPathSum(gs: seq<Coord>, rf: seq<bool>, cf: seq<bool>)
    requires AllFit(gs, |rf|, |cf|)
    ensures FactorPathSum(gs, Factors(1, rf), Factors(1, cf)) == PathSum(gs)
  {
    if gs != [] {
      UnitDistancesFrom(gs[0], gs[1..], rf, cf);
      UnitPathSum(gs[1..], rf, cf);
    }
  }

  /** Both parts agree: widening the map and summing plain distances is
      part two with an expansion factor of 2. */
  lemma PartsAgree(g: Grid)
    requires Rectangular(g)
    ensures AllFit(Galaxies(g), |g|, |g[0]|)
    ensures PathSum(Galaxies(Expanded(g))) == FactorPathSum(Galaxies(g), Factors(2, RowFlags(g)), Factors(2, ColFlags(g, |g[0]|)))
  {
    ExpandedGalaxies(g);
    DoubledPathSum(Galaxies(g), RowFlags(g), ColFlags(g, |g[0]|));
  }

  /** `expand_map` of part two: the factor lists, built by appending. */
  method ExpandFactors(k: int, g: Grid) returns (rows: seq<int>, cols: seq<int>)
    requires Rectangular(g)
    ensures |rows| == |g| && forall r :: 0 <= r < |g| ==> rows[r] == (if FreeRow(g[r]) then k else 1)
    ensures |cols| == |g[0]| && forall c :: 0 <= c < |g[0]| ==> cols[c] == (if FreeCol(g, c) then k else 1)
  {
    rows := [];
    for r := 0 to |g|
      invariant |rows| == r && forall q :: 0 <= q < r ==> rows[q] == (if FreeRow(g[q]) then k else 1)
    {
      if '#' !in g[r] {
        rows := rows + [k];
      } else {
        rows := rows + [1];
      }
    }
    cols := [];
    for c := 0 to |g[0]|
      invariant |cols| == c && forall q :: 0 <= q < c ==> cols[q] == (if FreeCol(g, q) then k else 1)
    {
      if FreeCol(g, c) {
        cols := cols + [k];
      } else {
        cols := cols + [1];
      }
    }
  }

  /** Part one's `main`: expand, list the galaxies, sum their distances. */
  method PartOne(g: Grid) returns (total: int)
    requires Rectangular(g)
    ensures total == PathSum(Galaxies(Expanded(g)))
  {
    var e := ExpandMap(g);
    var coords := GalaxyCoords(e);
    total := PathSum(coords);
  }

  /** Part two's `main` with expansion factor `k`. */
  method PartTwo(k: int, g: Grid) returns (total: int)
    requires Rectangular(g)
    ensures AllFit(Galaxies(g), |g|, |g[0]|)
    ensures total == FactorPathSum(Galaxies(g), Factors(k, RowFlags(g)), Factors(k, ColFlags(g, |g[0]|)))
  {
    var rows, cols := ExpandFactors(k, g);
    assert rows == Factors(k, RowFlags(g));
    assert cols == Factors(k, ColFlags(g, |g[0]|));
    var coords := GalaxyCoords(g);
    ExpandedGalaxies(g);
    total := FactorPathSum(coords, rows, cols);
  }
}
