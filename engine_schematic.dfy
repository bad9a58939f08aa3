/** Day 3: the engine schematic. Numbers in a grid of characters are part
    numbers when a symbol touches them (part one); a `*` touching exactly
    two numbers is a gear whose ratio is their product (part two). */
module EngineSchematic {
  import opened Arith
  import opened Text

  type Schematic = seq<string>

  /** A run of digits found in row `row`, starting at column `col`. */
  datatype Part = Part(number: string, row: nat, col: nat)

  predicate Rectangular(engine: Schematic)
  {
    forall r :: 0 <= r < |engine| ==> |engine[r]| == |engine[0]|
  }

  predicate Numeral(s: string)
  {
    s != [] && forall k :: 0 <= k < |s| ==> IsDigit(s[k])
  }

  // Finding the numbers: `re.finditer(r'\d+', row)`.

  /** The digit runs of row `r` from column `i` on, left to right, each
      as long as it can be. */
  function Runs(s: string, r: nat, i: nat): seq<Part>
    requires i <= |s|
    decreases |s| - i
  {
    if i == |s| then []
    else if !IsDigit(s[i]) then Runs(s, r, i + 1)
    else
      var j := RunEnd(s, i);
      [Part(s[i..j], r, i)] + Runs(s, r, j)
  }

  /** Part `p` is the maximal run of digits of `s` at its column. */
  predicate RunOf(p: Part, s: string, r: nat)
  {
    p.row == r && Numeral(p.number) && p.col + |p.number| <= |s| && s[p.col..p.col + |p.number|] == p.number &&
    (p.col == 0 || !IsDigit(s[p.col - 1])) && (p.col + |p.number| == |s| || !IsDigit(s[p.col + |p.number|]))
  }

  /** Every run found is a maximal run of digits, found in column order. */
  lemma {:induction false} RunsSound(s: string, r: nat, i: nat)
    requires i <= |s| && (i == 0 || i == |s| || !IsDigit(s[i - 1]) || !IsDigit(s[i]))
    ensures forall q :: 0 <= q < |Runs(s, r, i)| ==> RunOf(Runs(s, r, i)[q], s, r) && i <= Runs(s, r, i)[q].col
    ensures forall q, q' :: 0 <= q < q' < |Runs(s, r, i)| ==>
      Runs(s, r, i)[q].col + |Runs(s, r, i)[q].number| < Runs(s, r, i)[q'].col
    decreases |s| - i
  {
    if i < |s| {
      if !IsDigit(s[i]) {
        RunsSound(s, r, i + 1);
      } else {
        var j := RunEnd(s, i);
        RunsSound(s, r, j);
        var p := Part(s[i..j], r, i);
        assert RunOf(p, s, r);
      }
    }
  }

  /** Every digit from column `i` on lies in one of the runs found. */
  lemma {:induction false} RunsComplete(s: string, r: nat, i: nat, k: nat)
    requires i <= k < |s| && IsDigit(s[k])
    ensures exists q :: 0 <= q < |Runs(s, r, i)| && Runs(s, r, i)[q].col <= k < Runs(s, r, i)[q].col + |Runs(s, r, i)[q].number|
    decreases |s| - i
  {
    if !IsDigit(s[i]) {
      RunsComplete(s, r, i + 1, k);
      var q :| 0 <= q < |Runs(s, r, i + 1)| && Runs(s, r, i + 1)[q].col <= k < Runs(s, r, i + 1)[q].col + |Runs(s, r, i + 1)[q].number|;
      assert Runs(s, r, i)[q] == Runs(s, r, i + 1)[q];
    } else {
      var j := RunEnd(s, i);
      if k >= j {
        RunsComplete(s, r, j, k);
        var q :| 0 <= q < |Runs(s, r, j)| && Runs(s, r, j)[q].col <= k < Runs(s, r, j)[q].col + |Runs(s, r, j)[q].number|;
        assert Runs(s, r, i)[q + 1] == Runs(s, r, j)[q];
      } else {
        assert Runs(s, r, i)[0] == Part(s[i..j], r, i);
      }
    }
  }

  /** The runs of the first `n` rows, row by row. */
  function Candidates(engine: Schematic, n: nat): seq<Part>
    requires n <= |engine|
  {
    if n == 0 then [] else Candidates(engine, n - 1) + Runs(engine[n - 1], n - 1, 0)
  }

  /** Every candidate is a maximal digit run of its own row. */
  lemma {:induction false} CandidatesAreRuns(engine: Schematic, n: nat)
    requires n <= |engine|
    ensures forall q :: 0 <= q < |Candidates(engine, n)| ==>
      Candidates(engine, n)[q].row < n && RunOf(Candidates(engine, n)[q], engine[Candidates(engine, n)[q].row], Candidates(engine, n)[q].row)
  {
    if n > 0 {
      CandidatesAreRuns(engine, n - 1);
      RunsSound(engine[n - 1], n - 1, 0);
    }
  }

  /** `find_candidate_part_numbers` (and part two's `find_part_numbers`):
      the digit runs of every row, in reading order. */
  method FindCandidatePartNumbers(engine: Schematic) returns (parts: seq<Part>)
    ensures parts == Candidates(engine, |engine|)
  {
    parts := [];
    for rowId := 0 to |engine|
      invariant parts == Candidates(engine, rowId)
    {
      parts := parts + Runs(engine[rowId], rowId, 0);
    }
  }

  // Part one: numbers touching a symbol.

  /** `is_symbol`: anything but `.` and a digit. */
  predicate IsSymbol(c: char)
  {
    !(c == '.' || IsDigit(c))
  }

  /** A scanning window: rows `startRow..endRow` and columns
      `startCol..endCol`, bounds included. */
  datatype Window = Window(startRow: int, endRow: int, startCol: int, endCol: int)

  predicate InWindow(w: Window, r: int, c: int)
  {
    w.startRow <= r <= w.endRow && w.startCol <= c <= w.endCol
  }

  /** The window around columns `col .. col + width - 1` of `row`: one
      cell more on every side, clipped to the grid. On a rectangular grid
      it holds exactly the cells touching that stretch. */
  function Scan(engine: Schematic, row: nat, col: nat, width: nat): (w: Window)
    requires row < |engine|
    ensures 0 <= w.startRow && w.endRow < |engine| && 0 <= w.startCol && w.endCol < |engine[row]|
    ensures Rectangular(engine) ==> forall r, c :: 0 <= r < |engine| && 0 <= c < |engine[r]| ==>
      (InWindow(w, r, c) <==> row - 1 <= r <= row + 1 && col - 1 <= c <= col + width)
  {
    Window(Max(0, row - 1), Min(|engine| - 1, row + 1), Max(0, col - 1), Min(|engine[row]| - 1, col + width))
  }

  /** Some symbol lies in the part's window. */
  predicate Valid(part: Part, engine: Schematic)
    requires part.row < |engine|
  {
    var w := Scan(engine, part.row, part.col, |part.number|);
    exists r, c :: 0 <= r < |engine| && 0 <= c < |engine[r]| && InWindow(w, r, c) && IsSymbol(engine[r][c])
  }

  /** On a rectangular grid a part is valid exactly when a symbol touches
      one of its digits, diagonals included. */
  lemma ValidIffTouching(part: Part, engine: Schematic)
    requires Rectangular(engine) && part.row < |engine|
    ensures Valid(part, engine) <==> (exists r, c ::
      0 <= r < |engine| && 0 <= c < |engine[r]| && IsSymbol(engine[r][c]) &&
      part.row - 1 <= r <= part.row + 1 && part.col - 1 <= c <= part.col + |part.number|)
  {
    var w := Scan(engine, part.row, part.col, |part.number|);
    if Valid(part, engine) {
      var r, c :| 0 <= r < |engine| && 0 <= c < |engine[r]| && InWindow(w, r, c) && IsSymbol(engine[r][c]);
      assert part.row - 1 <= r <= part.row + 1 && part.col - 1 <= c <= part.col + |part.number|;
    }
  }

  /** `validate_part`: scans the window row by row and stops at the first
      symbol. */
  method ValidatePart(part: Part, engine: Schematic) returns (valid: bool)
    requires Rectangular(engine) && part.row < |engine|
    ensures valid <==> Valid(part, engine)
  {
    var w := Scan(engine, part.row, part.col, |part.number|);
    var row := w.startRow;
    while row <= w.endRow
      invariant w.startRow <= row <= w.endRow + 1
      invariant forall r, c :: w.startRow <= r < row && w.startCol <= c <= w.endCol ==> !IsSymbol(engine[r][c])
    {
      var col := w.startCol;
      while col <= w.endCol
        invariant w.startCol <= col
        invariant forall c :: w.startCol <= c < col && c <= w.endCol ==> !IsSymbol(engine[row][c])
      {
        if IsSymbol(engine[row][col]) {
          assert InWindow(w, row, col);
          return true;
        }
        col := col + 1;
      }
      row := row + 1;
    }
    return false;
  }

  /** `int(part_number)`. */
  function Number(p: Part): nat
    requires Numeral(p.number)
  {
    DigitsValue(p.number)
  }

  /** The parts are digit runs of rows of `engine`. */
  predicate WellFormed(engine: Schematic, parts: seq<Part>)
  {
    forall q :: 0 <= q < |parts| ==> parts[q].row < |engine| && Numeral(parts[q].number)
  }

  /** The sum of the valid parts' numbers. */
  function ValidSum(engine: Schematic, parts: seq<Part>): nat
    requires WellFormed(engine, parts)
  {
    if parts == [] then 0
    else
      var p := parts[|parts| - 1];
      ValidSum(engine, parts[..|parts| - 1]) + (if Valid(p, engine) then Number(p) else 0)
  }

  /** Part one's main loop: adds up the numbers of the valid candidates. */
  method SumOfValidPartNumbers(engine: Schematic) returns (sum: nat)
    requires Rectangular(engine)
    ensures (CandidatesAreRuns(engine, |engine|); sum == ValidSum(engine, Candidates(engine, |engine|)))
  {
    var candidates := FindCandidatePartNumbers(engine);
    CandidatesAreRuns(engine, |engine|);
    sum := SumValid(engine, candidates);
  }

  /** The summing loop of part one, over given candidates. */
  method SumValid(engine: Schematic, candidates: seq<Part>) returns (sum: nat)
    requires Rectangular(engine) && WellFormed(engine, candidates)
    ensures sum == ValidSum(engine, candidates)
  {
    sum := 0;
    for k := 0 to |candidates|
      invariant sum == ValidSum(engine, candidates[..k])
    {
      var part := candidates[k];
      var valid := ValidatePart(part, engine);
      if valid {
        sum := sum + Number(part);
      }
      assert candidates[..k + 1][..k] == candidates[..k];
    }
    assert candidates[..|candidates|] == candidates;
  }

  // Part two: gears.

  /** The `*` cells of row `r` before column `j`, left to right. */
  function RowStars(line: string, r: nat, j: nat): seq<(nat, nat)>
    requires j <= |line|
  {
    if j == 0 then []
    else RowStars(line, r, j - 1) + (if line[j - 1] == '*' then [(r, j - 1)] else [])
  }

  /** The `*` cells of the first `n` rows, in reading order. */
  function Stars(engine: Schematic, n: nat): seq<(nat, nat)>
    requires n <= |engine|
  {
    if n == 0 then [] else Stars(engine, n - 1) + RowStars(engine[n - 1], n - 1, |engine[n - 1]|)
  }

  predicate Before(a: (nat, nat), b: (nat, nat))
  {
    a.0 < b.0 || (a.0 == b.0 && a.1 < b.1)
  }

  lemma {:induction false} RowStarsSpec(line: string, r: nat, j: nat)
    requires j <= |line|
    ensures forall g :: g in RowStars(line, r, j) <==> g.0 == r && g.1 < j && line[g.1] == '*'
    ensures forall a, b :: 0 <= a < b < |RowStars(line, r, j)| ==> Before(RowStars(line, r, j)[a], RowStars(line, r, j)[b])
  {
    if j > 0 {
      RowStarsSpec(line, r, j - 1);
    }
  }

  /** The candidate gears are exactly the `*` cells, in reading order. */
  lemma {:induction false} StarsSpec(engine: Schematic, n: nat)
    requires n <= |engine|
    ensures forall g :: g in Stars(engine, n) <==> g.0 < n && g.1 < |engine[g.0]| && engine[g.0][g.1] == '*'
    ensures forall a, b :: 0 <= a < b < |Stars(engine, n)| ==> Before(Stars(engine, n)[a], Stars(engine, n)[b])
  {
    if n > 0 {
      StarsSpec(engine, n - 1);
      RowStarsSpec(engine[n - 1], n - 1, |engine[n - 1]|);
    }
  }

  /** `find_candidate_gears`: every `*`, row by row. */
  method FindCandidateGears(engine: Schematic) returns (gears: seq<(nat, nat)>)
    ensures gears == Stars(engine, |engine|)
  {
    gears := [];
    for rowId := 0 to |engine|
      invariant gears == Stars(engine, rowId)
    {
      var row := engine[rowId];
      for colId := 0 to |row|
        invariant gears == Stars(engine, rowId) + RowStars(row, rowId, colId)
      {
        if row[colId] == '*' {
          gears := gears + [(rowId, colId)];
        }
      }
    }
  }

  /** `get_gear_ratio`'s test: the part lies in the window's rows, and
      starts in its columns or starts to their left and reaches them. */
  predicate Adjacent(p: Part, w: Window)
  {
    p.row >= w.startRow && p.row <= w.endRow &&
    ((p.col >= w.startCol && p.col <= w.endCol) || (p.col < w.startCol && p.col + |p.number| - 1 >= w.startCol))
  }

  /** The two column tests together say the part's columns overlap the
      window's, when the window has a column at all. */
  lemma AdjacentOverlap(p: Part, w: Window)
    requires p.number != [] && w.startCol <= w.endCol
    ensures Adjacent(p, w) <==> w.startRow <= p.row <= w.endRow && p.col <= w.endCol && p.col + |p.number| - 1 >= w.startCol
  {
  }

  /** A part that is a digit run of a rectangular grid is adjacent to a gear
      exactly when one of its digits touches the gear, diagonals included. */
  lemma GearTouches(engine: Schematic, gear: (nat, nat), p: Part)
    requires Rectangular(engine) && gear.0 < |engine| && gear.1 < |engine[gear.0]|
    requires p.row < |engine| && RunOf(p, engine[p.row], p.row)
    ensures Adjacent(p, Scan(engine, gear.0, gear.1, 1)) <==>
      gear.0 - 1 <= p.row <= gear.0 + 1 && p.col <= gear.1 + 1 && p.col + |p.number| - 1 >= gear.1 - 1
  {
    AdjacentOverlap(p, Scan(engine, gear.0, gear.1, 1));
  }

  /** The parts adjacent to window `w`, in order. */
  function AdjacentParts(parts: seq<Part>, w: Window): (adj: seq<Part>)
    ensures |adj| <= |parts|
    ensures forall q :: 0 <= q < |adj| ==> adj[q] in parts && Adjacent(adj[q], w)
  {
    if parts == [] then []
    else
      var p := parts[|parts| - 1];
      AdjacentParts(parts[..|parts| - 1], w) + (if Adjacent(p, w) then [p] else [])
  }

  /** Every adjacent part is kept. */
  lemma {:induction false} AdjacentPartsComplete(parts: seq<Part>, w: Window)
    ensures forall p :: p in parts && Adjacent(p, w) ==> p in AdjacentParts(parts, w)
  {
    if parts != [] {
      AdjacentPartsComplete(parts[..|parts| - 1], w);
      assert parts == parts[..|parts| - 1] + [parts[|parts| - 1]];
    }
  }

  /** A gear's ratio: the product of its adjacent parts when there are
      exactly two, 0 otherwise. */
  function Ratio(engine: Schematic, gear: (nat, nat), parts: seq<Part>): nat
    requires gear.0 < |engine| && WellFormed(engine, parts)
  {
    var adj := AdjacentParts(parts, Scan(engine, gear.0, gear.1, 1));
    if |adj| == 2 then Number(adj[0]) * Number(adj[1]) else 0
  }

  lemma AdjacentPartsStep(parts: seq<Part>, k: nat, w: Window)
    requires k < |parts|
    ensures AdjacentParts(parts[..k + 1], w) == AdjacentParts(parts[..k], w) + (if Adjacent(parts[k], w) then [parts[k]] else [])
  {
    assert parts[..k + 1][..k] == parts[..k];
  }

  /** `get_gear_ratio`'s loop: the parts touching the window, in order. */
  method CollectAdjacent(parts: seq<Part>, w: Window) returns (adjacent: seq<Part>)
    ensures adjacent == AdjacentParts(parts, w)
  {
    adjacent := [];
    for k := 0 to |parts|
      invariant adjacent == AdjacentParts(parts[..k], w)
    {
      var part := parts[k];
      var partLength := |part.number|;
      if part.row >= w.startRow && part.row <= w.endRow {
        if part.col >= w.startCol && part.col <= w.endCol {
          adjacent := adjacent + [part];
        } else if part.col < w.startCol && part.col + partLength - 1 >= w.startCol {
          adjacent := adjacent + [part];
        }
      }
      AdjacentPartsStep(parts, k, w);
    }
    assert parts[..|parts|] == parts;
  }

  /** `get_gear_ratio`: collects the adjacent parts, then multiplies. */
  method GetGearRatio(gear: (nat, nat), engine: Schematic, parts: seq<Part>) returns (ratio: nat)
    requires gear.0 < |engine| && WellFormed(engine, parts)
    ensures ratio == Ratio(engine, gear, parts)
  {
    var w := Scan(engine, gear.0, gear.1, 1);
    var adjacent := CollectAdjacent(parts, w);
    if |adjacent| == 2 {
      ratio := Number(adjacent[0]) * Number(adjacent[1]);
    } else {
      ratio := 0;
    }
  }

  /** The sum of the ratios of `gears`. */
  function RatioSum(engine: Schematic, gears: seq<(nat, nat)>, parts: seq<Part>): nat
    requires forall g :: g in gears ==> g.0 < |engine|
    requires WellFormed(engine, parts)
  {
    if gears == [] then 0
    else RatioSum(engine, gears[..|gears| - 1], parts) + Ratio(engine, gears[|gears| - 1], parts)
  }

  /** Part two's main loop: the sum of the ratios of all `*` cells. */
  method SumOfGearRatios(engine: Schematic) returns (sum: nat)
    ensures (StarsSpec(engine, |engine|); CandidatesAreRuns(engine, |engine|);
      sum == RatioSum(engine, Stars(engine, |engine|), Candidates(engine, |engine|)))
  {
    var partNumbers := FindCandidatePartNumbers(engine);
    var candidateGears := FindCandidateGears(engine);
    StarsSpec(engine, |engine|);
    CandidatesAreRuns(engine, |engine|);
    sum := SumRatios(engine, candidateGears, partNumbers);
  }

  /** The summing loop of part two, over given gears and parts. */
  method SumRatios(engine: Schematic, gears: seq<(nat, nat)>, parts: seq<Part>) returns (sum: nat)
    requires forall g :: g in gears ==> g.0 < |engine|
    requires WellFormed(engine, parts)
    ensures sum == RatioSum(engine, gears, parts)
  {
    sum := 0;
    for k := 0 to |gears|
      invariant sum == RatioSum(engine, gears[..k], parts)
    {
      var gearRatio := GetGearRatio(gears[k], engine, parts);
      sum := sum + gearRatio;
      assert gears[..k + 1][..k] == gears[..k];
    }
    assert gears[..|gears|] == gears;
  }
}
