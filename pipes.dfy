/** Day 10, the pipe maze: the walk round the loop from the animal `S`
    (both parts) and part two's diagonal ray cast for enclosed tiles. */
module Pipes {

  import opened Wrappers
  import opened Grids

  type Coord = (int, int)

  function Plus(a: Coord, d: Coord): Coord
  {
    (a.0 + d.0, a.1 + d.1)
  }

  function Minus(a: Coord, b: Coord): Coord
  {
    (a.0 - b.0, a.1 - b.1)
  }

  /** One step up, down, left or right. */
  predicate Unit(d: Coord)
  {
    d == (-1, 0) || d == (1, 0) || d == (0, -1) || d == (0, 1)
  }

  /** `symbol_directions`: the two exits of a pipe, in the dict's order;
      `None` for the `KeyError` on any other symbol. */
  function Exits(sym: char): (r: Option<(Coord, Coord)>)
    ensures r.Some? <==> sym in "-|L7JF"
    ensures r.Some? ==> Unit(r.value.0) && Unit(r.value.1) && r.value.0 != r.value.1
  {
    match sym
    case '-' => Some(((0, -1), (0, 1)))
    case '|' => Some(((-1, 0), (1, 0)))
    case 'L' => Some(((-1, 0), (0, 1)))
    case '7' => Some(((0, -1), (1, 0)))
    case 'J' => Some(((0, -1), (-1, 0)))
    case 'F' => Some(((1, 0), (0, 1)))
    case _ => None
  }

  /** The pipe has an exit in direction `d`. */
  predicate HasExit(sym: char, d: Coord)
  {
    Exits(sym).Some? && (Exits(sym).value.0 == d || Exits(sym).value.1 == d)
  }

  /** The symbol lists the animal checks are exactly the pipes with an
      exit pointing back at the animal. */
  lemma AnimalListsConnect(sym: char)
    ensures sym in "F|7" <==> HasExit(sym, (1, 0))
    ensures sym in "J|L" <==> HasExit(sym, (-1, 0))
    ensures sym in "L-F" <==> HasExit(sym, (0, 1))
    ensures sym in "7-J" <==> HasExit(sym, (0, -1))
  {
  }

  /** Python's `s[i]`: a negative index counts from the end; `None` for
      the `IndexError`. */
  function PyIndex<T>(s: seq<T>, i: int): (r: Option<T>)
    ensures r.Some? <==> -|s| <= i < |s|
    ensures 0 <= i < |s| ==> r == Some(s[i])
  {
    if 0 <= i < |s| then Some(s[i])
    else if -|s| <= i < 0 then Some(s[|s| + i])
    else None
  }

  /** `maze[r][c]`. */
  function At(maze: Grid, c: Coord): Option<char>
  {
    match PyIndex(maze, c.0)
    case None => None
    case Some(row) => PyIndex(row, c.1)
  }

  datatype Next = Go(to: Coord) | NoPath | Fault

  /** One check around the animal: when `guard` holds, look at the
      neighbour in direction `d` and go there if its symbol is in `accept`;
      otherwise fall through to the next check. */
  function Probe(maze: Grid, cur: Coord, d: Coord, accept: string, guard: bool, otherwise: Next): Next
  {
    if !guard then otherwise
    else
      match At(maze, Plus(cur, d))
      case None => Fault
      case Some(sym) => if sym in accept then Go(Plus(cur, d)) else otherwise
  }

  /** The `S` branch of `get_next_step`: above, below, left, right. */
  function FromAnimal(maze: Grid, cur: Coord): Next
  {
    var wide := if maze == [] then 0 else |maze[0]|;
    Probe(maze, cur, (-1, 0), "F|7", cur.0 > 0,
      Probe(maze, cur, (1, 0), "J|L", cur.0 < |maze| - 1,
        Probe(maze, cur, (0, -1), "L-F", cur.1 > 0,
          Probe(maze, cur, (0, 1), "7-J", cur.1 < wide - 1, NoPath))))
  }

  /** The four checks, in the order the animal tries them. */
  function Dir(k: nat): Coord
    requires k < 4
  {
    [(-1, 0), (1, 0), (0, -1), (0, 1)][k]
  }

  predicate Guard(maze: Grid, cur: Coord, k: nat)
    requires k < 4
  {
    if k == 0 then cur.0 > 0
    else if k == 1 then cur.0 < |maze| - 1
    else if k == 2 then cur.1 > 0
    else cur.1 < (if maze == [] then 0 else |maze[0]|) - 1
  }

  /** The first neighbour, from check `k` on, whose pipe leads back. */
  function Connecting(maze: Grid, cur: Coord, k: nat): Next
    requires k <= 4
    decreases 4 - k
  {
    if k == 4 then NoPath
    else if !Guard(maze, cur, k) then Connecting(maze, cur, k + 1)
    else
      match At(maze, Plus(cur, Dir(k)))
      case None => Fault
      case Some(sym) =>
        if HasExit(sym, Minus((0, 0), Dir(k))) then Go(Plus(cur, Dir(k))) else Connecting(maze, cur, k + 1)
  }

  /** The animal steps onto the first neighbour, in the order above,
      below, left, right, whose pipe has an exit pointing back at it. */
  lemma FromAnimalConnects(maze: Grid, cur: Coord)
    ensures FromAnimal(maze, cur) == Connecting(maze, cur, 0)
  {
    var wide := if maze == [] then 0 else |maze[0]|;
    ProbeConnects(maze, cur, 3, "7-J", NoPath);
    var c3 := Probe(maze, cur, (0, 1), "7-J", cur.1 < wide - 1, NoPath);
    ProbeConnects(maze, cur, 2, "L-F", c3);
    var c2 := Probe(maze, cur, (0, -1), "L-F", cur.1 > 0, c3);
    ProbeConnects(maze, cur, 1, "J|L", c2);
    var c1 := Probe(maze, cur, (1, 0), "J|L", cur.0 < |maze| - 1, c2);
    ProbeConnects(maze, cur, 0, "F|7", c1);
  }

  /** Check `k` of the animal, given the checks after it. */
  lemma ProbeConnects(maze: Grid, cur: Coord, k: nat, accept: string, otherwise: Next)
    requires k < 4 && otherwise == Connecting(maze, cur, k + 1)
    requires accept == ["F|7", "J|L", "L-F", "7-J"][k]
    ensures Probe(maze, cur, Dir(k), accept, Guard(maze, cur, k), otherwise) == Connecting(maze, cur, k)
  {
    match At(maze, Plus(cur, Dir(k)))
    case None =>
    case Some(sym) => AnimalListsConnect(sym);
  }

  /** Whatever the animal's step finds is one step away. */
  lemma {:induction false} ConnectingSteps(maze: Grid, cur: Coord, k: nat)
    requires k <= 4
    ensures Connecting(maze, cur, k).Go? ==> Unit(Minus(Connecting(maze, cur, k).to, cur))
    decreases 4 - k
  {
    if k < 4 {
      ConnectingSteps(maze, cur, k + 1);
    }
  }

  /** The other branch of `get_next_step`: leave by the exit that is not
      the arrival direction (by the first exit when the second is). */
  function Onward(cur: Coord, sym: char, prev: Coord): Next
  {
    match Exits(sym)
    case None => Fault
    case Some((e0, e1)) => if e0 == Minus(prev, cur) then Go(Plus(cur, e1)) else Go(Plus(cur, e0))
  }

  /** Arriving through one exit of a pipe, the walk leaves by the other. */
  lemma OnwardLeaves(cur: Coord, sym: char, prev: Coord)
    requires HasExit(sym, Minus(prev, cur))
    ensures Onward(cur, sym, prev).Go?
    ensures var d := Minus(Onward(cur, sym, prev).to, cur);
      HasExit(sym, d) && d != Minus(prev, cur)
  {
  }

  /** `get_next_step`. */
  function NextStep(maze: Grid, cur: Coord, sym: char, prev: Coord): (n: Next)
    ensures n.Go? ==> Unit(Minus(n.to, cur))
  {
    if sym == 'S' then
      FromAnimalConnects(maze, cur);
      ConnectingSteps(maze, cur, 0);
      FromAnimal(maze, cur)
    else Onward(cur, sym, prev)
  }

  // Finding the animal.

  /** `row.index(x)` for an `x` in the row. */
  function IndexOf(row: seq<char>, x: char): (i: nat)
    requires x in row
    ensures i < |row| && row[i] == x && x !in row[..i]
  {
    if row[0] == x then 0
    else
      assert row == [row[0]] + row[1..];
      var i := IndexOf(row[1..], x);
      assert row[..i + 1] == [row[0]] + row[1..][..i];
      i + 1
  }

  /** The animal among the first `n` rows: the last row holding an `S`,
      at its first `S`. */
  function AnimalIn(maze: Grid, n: nat): Option<Coord>
    requires n <= |maze|
  {
    if n == 0 then None
    else if 'S' in maze[n - 1] then Some((n - 1, IndexOf(maze[n - 1], 'S')))
    else AnimalIn(maze, n - 1)
  }

  /** The animal sits on an `S` of the last row that has one, at the
      first `S` of that row; there is none when no row has an `S`. */
  lemma {:induction false} AnimalInSpec(maze: Grid, n: nat)
    requires n <= |maze|
    ensures AnimalIn(maze, n).None? <==> forall r :: 0 <= r < n ==> 'S' !in maze[r]
    ensures AnimalIn(maze, n).Some? ==>
      var (r, c) := AnimalIn(maze, n).value;
      0 <= r < n && 0 <= c < |maze[r]| && maze[r][c] == 'S' && 'S' !in maze[r][..c] &&
      forall q :: r < q < n ==> 'S' !in maze[q]
  {
    if n > 0 && 'S' !in maze[n - 1] {
      AnimalInSpec(maze, n - 1);
    }
  }

  /** The loop that finds the animal. */
  method FindAnimal(maze: Grid) returns (animal: Option<Coord>)
    ensures animal == AnimalIn(maze, |maze|)
  {
    animal := None;
    for r := 0 to |maze|
      invariant animal == AnimalIn(maze, r)
    {
      if 'S' in maze[r] {
        animal := Some((r, IndexOf(maze[r], 'S')));
      }
    }
  }

  // The walk round the loop.

  /** How the walk ends: back at the animal with the tiles stepped on, no
      way out of the animal, an exception, or the fuel spent. */
  datatype Outcome = Closed(trail: seq<Coord>) | NoWay | Crash | OutOfFuel

  /** The `while True` loop from `cur` (holding `sym`, entered from
      `prev`), taking at most `fuel` steps: the tiles stepped on, in walk
      order, ending at the animal. */
  function Walk(maze: Grid, cur: Coord, sym: char, prev: Coord, fuel: nat): Outcome
    decreases fuel, 1
  {
    if fuel == 0 then OutOfFuel else StepOn(maze, cur, sym, prev, fuel)
  }

  /** One turn of the loop, then the walk from the tile it reaches. */
  function StepOn(maze: Grid, cur: Coord, sym: char, prev: Coord, fuel: nat): Outcome
    requires fuel > 0
    decreases fuel, 0
  {
    match NextStep(maze, cur, sym, prev)
    case NoPath => NoWay
    case Fault => Crash
    case Go(n) =>
      match At(maze, n)
      case None => Crash
      case Some(s) =>
        if s == 'S' then Closed([n])
        else After([n], Walk(maze, n, s, cur, fuel - 1))
  }

  /** The tiles `t` stepped on before an outcome. */
  function After(t: seq<Coord>, o: Outcome): Outcome
  {
    if o.Closed? then Closed(t + o.trail) else o
  }

  /** A closed walk ends on the animal's `S` and meets no `S` before; each
      tile is one step from the one before, and there are no more tiles
      than steps of fuel. */
  lemma {:induction false} ClosedTrail(maze: Grid, cur: Coord, sym: char, prev: Coord, fuel: nat)
    requires Walk(maze, cur, sym, prev, fuel).Closed?
    ensures var t := Walk(maze, cur, sym, prev, fuel).trail;
      0 < |t| <= fuel && At(maze, t[|t| - 1]) == Some('S') &&
      (forall k :: 0 <= k < |t| ==> At(maze, t[k]).Some?) &&
      (forall k :: 0 <= k < |t| - 1 ==> At(maze, t[k]) != Some('S')) &&
      Unit(Minus(t[0], cur)) && (forall k :: 0 <= k < |t| - 1 ==> Unit(Minus(t[k + 1], t[k])))
    decreases fuel
  {
    WalkStep(maze, cur, sym, prev, fuel);
    var n := NextStep(maze, cur, sym, prev).to;
    var s := At(maze, n).value;
    if s != 'S' {
      ClosedTrail(maze, n, s, cur, fuel - 1);
      var t' := Walk(maze, n, s, cur, fuel - 1).trail;
      var t := [n] + t';
      assert Walk(maze, cur, sym, prev, fuel).trail == t;
      assert forall k :: 0 < k < |t| ==> t[k] == t'[k - 1];
    }
  }

  /** `get_farthest_point`: from the animal, half the steps round the
      loop (a float in the source), 0 when the animal has no way out;
      `None` where the source raises or the fuel runs out. */
  function Farthest(maze: Grid, fuel: nat): Option<real>
  {
    match AnimalIn(maze, |maze|)
    case None => None
    case Some(a) => HalfOf(Walk(maze, a, 'S', a, fuel))
  }

  /** What `get_farthest_point` returns for a walk's outcome. */
  function HalfOf(o: Outcome): Option<real>
  {
    match o
    case Closed(t) => Some(Half(|t|))
    case NoWay => Some(0.0)
    case _ => None
  }

  /** `steps_taken / 2`, true division. */
  function Half(n: nat): real
  {
    n as real / 2.0
  }

  /** One turn of the loop in `get_farthest_point` and
      `get_pipe_coordinates`: how the walk from here ends, or that it is
      this step followed by the walk from the next tile. */
  lemma WalkStep(maze: Grid, cur: Coord, sym: char, prev: Coord, fuel: nat)
    ensures var w := Walk(maze, cur, sym, prev, fuel);
      var next := NextStep(maze, cur, sym, prev);
      if fuel == 0 then w == OutOfFuel
      else if next.NoPath? then w == NoWay
      else if next.Fault? || At(maze, next.to).None? then w == Crash
      else if At(maze, next.to).value == 'S' then w == Closed([next.to])
      else w == After([next.to], Walk(maze, next.to, At(maze, next.to).value, cur, fuel - 1))
  {
  }

  /** One more tile of a walk that goes on from it. */
  lemma Advance(whole: Outcome, t: seq<Coord>, rest: Outcome, n: Coord, next: Outcome)
    requires whole == After(t, rest) && rest == After([n], next)
    ensures whole == After(t + [n], next)
  {
    AfterAfter(t, [n], next);
  }

  lemma AfterAfter(t: seq<Coord>, u: seq<Coord>, o: Outcome)
    ensures After(t, After(u, o)) == After(t + u, o)
  {
  }

  /** `get_farthest_point`, with at most `fuel` turns of its loop. */
  method GetFarthestPoint(maze: Grid, fuel: nat) returns (r: Option<real>)
    ensures r == Farthest(maze, fuel)
  {
    var animal := FindAnimal(maze);
    if animal.None? {
      return None;
    }
    var steps;
    ghost var o;
    steps, o := CountRound(maze, animal.value, fuel);
    if steps.None? {
      return None;
    }
    return Some(Half(steps.value));
  }

  /** The steps a walk's outcome counts: the tiles of a closed loop, none
      when the animal has no way out. */
  function StepsOf(o: Outcome): (r: Option<nat>)
    ensures r.Some? ==> HalfOf(o) == Some(Half(r.value))
    ensures r.None? <==> HalfOf(o).None?
  {
    match o
    case Closed(t) => Some(|t|)
    case NoWay => Some(0)
    case _ => None
  }

  /** One turn of the walk: it ends here with an outcome (a closed walk
      then holds just the tile reached), or moves on to a tile other than
      the animal's. */
  datatype Turn = Ended(outcome: Outcome) | Moved(to: Coord, sym: char)

  /** The body of the loops of `get_farthest_point` and
      `get_pipe_coordinates`, with `fuel` turns left. */
  method TakeTurn(maze: Grid, cur: Coord, sym: char, prev: Coord, fuel: nat) returns (t: Turn)
    ensures t.Ended? ==> t.outcome == Walk(maze, cur, sym, prev, fuel)
    ensures t.Ended? && t.outcome.Closed? ==> |t.outcome.trail| == 1
    ensures t.Ended? || (0 < fuel && t.sym != 'S' &&
      Walk(maze, cur, sym, prev, fuel) == After([t.to], Walk(maze, t.to, t.sym, cur, fuel - 1)))
  {
    WalkStep(maze, cur, sym, prev, fuel);
    if fuel == 0 {
      return Ended(OutOfFuel);
    }
    var next := NextStep(maze, cur, sym, prev);
    if next.NoPath? {
      return Ended(NoWay);
    }
    if next.Fault? {
      return Ended(Crash);
    }
    var here := At(maze, next.to);
    if here.None? {
      return Ended(Crash);
    }
    if here.value == 'S' {
      return Ended(Closed([next.to]));
    }
    return Moved(next.to, here.value);
  }

  /** The loop of `get_farthest_point`, from the animal at `a`: the steps
      it counts, and `o`, how the walk ends. */
  method CountRound(maze: Grid, a: Coord, fuel: nat) returns (r: Option<nat>, ghost o: Outcome)
    ensures o == Walk(maze, a, 'S', a, fuel) && r == StepsOf(o)
  {
    o := Walk(maze, a, 'S', a, fuel);
    ghost var rest := o;
    AfterAfter([], [], o);
    var steps: nat := 0;
    var left: nat := fuel;
    var cur, sym, prev := a, 'S', a;
    ghost var trail: seq<Coord> := [];
    while true
      invariant steps == |trail| && steps + left == fuel
      invariant rest == Walk(maze, cur, sym, prev, left)
      invariant o == After(trail, rest)
      decreases left
    {
      var t := TakeTurn(maze, cur, sym, prev, left);
      if t.Ended? {
        assert t.outcome == rest;
        match t.outcome
        case Closed(_) => return Some(steps + 1), o;
        case NoWay => return Some(0), o;
        case _ => return None, o;
      }
      ghost var next := Walk(maze, t.to, t.sym, cur, left - 1);
      Advance(o, trail, rest, t.to, next);
      rest := next;
      steps, left := steps + 1, left - 1;
      trail := trail + [t.to];
      prev, cur, sym := cur, t.to, t.sym;
    }
  }

  /** `get_pipe_coordinates`, with at most `fuel` turns of its loop; the
      source's `return 0` is `NoWay`. */
  method GetPipeCoordinates(maze: Grid, fuel: nat) returns (o: Outcome)
    ensures o == (match AnimalIn(maze, |maze|)
                  case None => Crash
                  case Some(a) => Walk(maze, a, 'S', a, fuel))
  {
    var animal := FindAnimal(maze);
    if animal.None? {
      return Crash;
    }
    o := CollectPipes(maze, animal.value, fuel);
  }

  /** The loop of `get_pipe_coordinates`, from the animal at `a`. */
  method CollectPipes(maze: Grid, a: Coord, fuel: nat) returns (o: Outcome)
    ensures o == Walk(maze, a, 'S', a, fuel)
  {
    ghost var whole := Walk(maze, a, 'S', a, fuel);
    AfterAfter([], [], whole);
    var steps: nat := 0;
    var left: nat := fuel;
    var cur, sym, prev := a, 'S', a;
    var pipes: seq<Coord> := [];
    while true
      invariant steps == |pipes| && steps + left == fuel
      invariant whole == After(pipes, Walk(maze, cur, sym, prev, left))
      decreases left
    {
      var t := TakeTurn(maze, cur, sym, prev, left);
      if t.Ended? {
        o := After(pipes, t.outcome);
        return;
      }
      Collected(whole, pipes, maze, cur, sym, prev, left, t.to, t.sym);
      steps, left := steps + 1, left - 1;
      pipes := pipes + [t.to];
      prev, cur, sym := cur, t.to, t.sym;
    }
  }

  /** A turn of `get_pipe_coordinates` that moves on appends the tile it
      reaches to the tiles collected. */
  lemma Collected(whole: Outcome, pipes: seq<Coord>, maze: Grid, cur: Coord, sym: char, prev: Coord, left: nat, to: Coord, sym': char)
    requires whole == After(pipes, Walk(maze, cur, sym, prev, left))
    requires 0 < left && Walk(maze, cur, sym, prev, left) == After([to], Walk(maze, to, sym', cur, left - 1))
    ensures whole == After(pipes + [to], Walk(maze, to, sym', cur, left - 1))
  {
    AfterAfter(pipes, [to], Walk(maze, to, sym', cur, left - 1));
  }

  /** Part one's answer is half the number of tiles of the loop that part
      two collects. */
  lemma FarthestIsHalfTheLoop(maze: Grid, fuel: nat)
    requires AnimalIn(maze, |maze|).Some?
    requires Walk(maze, AnimalIn(maze, |maze|).value, 'S', AnimalIn(maze, |maze|).value, fuel).Closed?
    ensures var a := AnimalIn(maze, |maze|).value;
      Farthest(maze, fuel) == Some(Half(|Walk(maze, a, 'S', a, fuel).trail|))
  {
  }

  // Part two: the diagonal ray.

  /** The ray crosses the loop at `(x, y)`: a tile of the loop other than
      `L` and `7`, which a diagonal ray only grazes. */
  predicate Crossing(maze: Grid, pipes: seq<Coord>, x: int, y: int)
  {
    (x, y) in pipes && At(maze, (x, y)) != Some('L') && At(maze, (x, y)) != Some('7')
  }

  /** The crossings `is_point_in_poly` counts from `(x, y)` as written:
      the row `x` is bounded by the maze's width and the column `y` by its
      height. */
  function RayAsWritten(maze: Grid, pipes: seq<Coord>, x: int, y: int): nat
    requires maze != []
    decreases |maze[0]| - x
  {
    if x < |maze[0]| && y < |maze| then
      (if Crossing(maze, pipes, x, y) then 1 else 0) + RayAsWritten(maze, pipes, x + 1, y + 1)
    else 0
  }

  /** The ray as intended: on until the row leaves the height or the
      column leaves the width. */
  function Ray(maze: Grid, pipes: seq<Coord>, x: int, y: int): nat
    requires maze != []
    decreases |maze| - x
  {
    if x < |maze| && y < |maze[0]| then
      (if Crossing(maze, pipes, x, y) then 1 else 0) + Ray(maze, pipes, x + 1, y + 1)
    else 0
  }

  /** The crossings on the diagonal from `(x, y)` down and to the right,
      within the maze. */
  function DiagonalCrossings(maze: Grid, pipes: seq<Coord>, x: int, y: int): set<Coord>
    requires maze != []
  {
    set r: int, c: int | x <= r < |maze| && 0 <= c < |maze[0]| && r - c == x - y && Crossing(maze, pipes, r, c) :: (r, c)
  }

  /** The intended ray counts every crossing on the diagonal within the
      maze, each once. */
  lemma {:induction false} RayCountsDiagonal(maze: Grid, pipes: seq<Coord>, x: int, y: int)
    requires maze != [] && 0 <= y
    ensures Ray(maze, pipes, x, y) == |DiagonalCrossings(maze, pipes, x, y)|
    decreases |maze| - x
  {
    var d := DiagonalCrossings(maze, pipes, x, y);
    if x < |maze| && y < |maze[0]| {
      RayCountsDiagonal(maze, pipes, x + 1, y + 1);
      var d' := DiagonalCrossings(maze, pipes, x + 1, y + 1);
      DiagonalStep(maze, pipes, x, y);
    } else {
      assert d == {} by {
        forall q | q in d ensures false {
        }
      }
    }
  }

  /** The diagonal from `(x, y)` is its first tile, when that is a
      crossing, followed by the diagonal from the next tile. */
  lemma DiagonalStep(maze: Grid, pipes: seq<Coord>, x: int, y: int)
    requires maze != [] && 0 <= y && x < |maze| && y < |maze[0]|
    ensures var here: set<Coord> := if Crossing(maze, pipes, x, y) then {(x, y)} else {};
      DiagonalCrossings(maze, pipes, x, y) == here + DiagonalCrossings(maze, pipes, x + 1, y + 1) &&
      here !! DiagonalCrossings(maze, pipes, x + 1, y + 1)
  {
    var here: set<Coord> := if Crossing(maze, pipes, x, y) then {(x, y)} else {};
    forall q | q in DiagonalCrossings(maze, pipes, x, y)
      ensures q in here + DiagonalCrossings(maze, pipes, x + 1, y + 1)
    {
    }
  }

  /** On a square maze the ray as written is the intended one. */
  lemma {:induction false} SquareRaysAgree(maze: Grid, pipes: seq<Coord>, x: int, y: int)
    requires maze != [] && |maze| == |maze[0]|
    ensures RayAsWritten(maze, pipes, x, y) == Ray(maze, pipes, x, y)
    decreases |maze| - x
  {
    if x < |maze| && y < |maze[0]| {
      SquareRaysAgree(maze, pipes, x + 1, y + 1);
    }
  }

  /** A five-by-three loop whose middle column is enclosed. */
  const TallMaze: Grid := ["S-7", "|.|", "|.|", "|.|", "L-J"]

  /** Its loop, in the order the walk steps on it: down from `S`, along
      the bottom, up the right side and back along the top. */
  const TallLoop: seq<Coord> := [(1, 0), (2, 0), (3, 0), (4, 0), (4, 1), (4, 2),
                                 (3, 2), (2, 2), (1, 2), (0, 2), (0, 1), (0, 0)]

  /** From the enclosed tile `(2, 1)` the ray as written stops at row 3,
      the maze's width, before it reaches the right side at `(3, 2)`: it
      counts no crossing and calls the tile outside. */
  lemma TallMazeMisread()
    ensures RayAsWritten(TallMaze, TallLoop, 2, 1) == 0
    ensures Ray(TallMaze, TallLoop, 2, 1) == 1
  {
    assert (2, 1) !in TallLoop;
    assert (3, 2) == TallLoop[6];
    assert At(TallMaze, (3, 2)) == Some('|');
    assert Ray(TallMaze, TallLoop, 4, 3) == 0;
  }

  /** A three-by-five loop whose middle row is enclosed. */
  const WideMaze: Grid := ["S---7", "|...|", "L---J"]

  /** Its loop, in the order the walk steps on it: down from `S`, along
      the bottom, up the right side and back along the top. */
  const WideLoop: seq<Coord> := [(1, 0), (2, 0), (2, 1), (2, 2), (2, 3), (2, 4),
                                 (1, 4), (0, 4), (0, 3), (0, 2), (0, 1), (0, 0)]

  /** From the enclosed tile `(1, 2)` the ray as written stops at column
      3, the maze's height, before it reaches the bottom at `(2, 3)`: it
      counts no crossing and calls the tile outside. */
  lemma WideMazeMisread()
    ensures RayAsWritten(WideMaze, WideLoop, 1, 2) == 0
    ensures Ray(WideMaze, WideLoop, 1, 2) == 1
  {
    assert (1, 2) !in WideLoop;
    assert (2, 3) == WideLoop[4];
    assert At(WideMaze, (2, 3)) == Some('-');
    assert Ray(WideMaze, WideLoop, 3, 4) == 0;
  }

  // Part two's main loop and `count_enclosed` over the maze as an array.

  /** The maze's rows, read from the array. */
  function Rows(a: array2<char>): (g: Grid)
    reads a
    ensures |g| == a.Length0 && forall i :: 0 <= i < a.Length0 ==> |g[i]| == a.Length1
  {
    seq(a.Length0, i requires 0 <= i < a.Length0 reads a =>
      seq(a.Length1, j requires 0 <= j < a.Length1 reads a => a[i, j]))
  }

  /** Every tile of the loop with non-negative coordinates lies in the
      maze (the walk can reach others only through a negative index). */
  predicate Charted(pipes: seq<Coord>, height: nat, width: nat)
  {
    forall k :: 0 <= k < |pipes| && 0 <= pipes[k].0 && 0 <= pipes[k].1 ==> pipes[k].0 < height && pipes[k].1 < width
  }

  /** A closed walk only steps on tiles it could index, so its loop is
      charted. */
  lemma ClosedCharted(maze: Grid, cur: Coord, sym: char, prev: Coord, fuel: nat, width: nat)
    requires Rect(maze, width) && Walk(maze, cur, sym, prev, fuel).Closed?
    ensures Charted(Walk(maze, cur, sym, prev, fuel).trail, |maze|, width)
  {
    ClosedTrail(maze, cur, sym, prev, fuel);
  }

  /** `is_point_in_poly`, with the ray bounded as intended. */
  method IsPointInPoly(maze: array2<char>, pipes: seq<Coord>, x0: int, y0: int) returns (inside: bool)
    requires maze.Length0 > 0 && 0 <= x0 && 0 <= y0
    requires Charted(pipes, maze.Length0, maze.Length1)
    ensures inside == (Ray(Rows(maze), pipes, x0, y0) % 2 == 1)
  {
    var x, y := x0, y0;
    var intersections := 0;
    while x < maze.Length0 && y < maze.Length1
      invariant x0 <= x && y0 <= y
      invariant intersections + Ray(Rows(maze), pipes, x, y) == Ray(Rows(maze), pipes, x0, y0)
      decreases maze.Length0 - x
    {
      if (x, y) in pipes && maze[x, y] != 'L' && maze[x, y] != '7' {
        intersections := intersections + 1;
      }
      x, y := x + 1, y + 1;
    }
    return intersections % 2 == 1;
  }

  /** The ray reads only the loop's tiles: two mazes that agree on them
      give the same count. */
  lemma {:induction false} RayReadsLoop(m1: Grid, m2: Grid, pipes: seq<Coord>, x: int, y: int)
    requires m1 != [] && |m1| == |m2| && Rect(m1, |m1[0]|) && Rect(m2, |m1[0]|)
    requires forall k :: 0 <= k < |pipes| && 0 <= pipes[k].0 < |m1| && 0 <= pipes[k].1 < |m1[0]| ==>
      m1[pipes[k].0][pipes[k].1] == m2[pipes[k].0][pipes[k].1]
    requires 0 <= x && 0 <= y
    ensures Ray(m1, pipes, x, y) == Ray(m2, pipes, x, y)
    decreases |m1| - x
  {
    if x < |m1| && y < |m1[0]| {
      if (x, y) in pipes {
        var k :| 0 <= k < |pipes| && pipes[k] == (x, y);
      }
      RayReadsLoop(m1, m2, pipes, x + 1, y + 1);
    }
  }

  /** The array still holds `orig`'s symbols on the loop's tiles. */
  predicate LoopKept(orig: Grid, maze: array2<char>, pipes: seq<Coord>)
    reads maze
    requires |orig| == maze.Length0 && Rect(orig, maze.Length1)
  {
    forall k :: 0 <= k < |pipes| && 0 <= pipes[k].0 < maze.Length0 && 0 <= pipes[k].1 < maze.Length1 ==>
      orig[pipes[k].0][pipes[k].1] == maze[pipes[k].0, pipes[k].1]
  }

  /** The mark `main` gives tile `(i, j)` of `g`: pipes keep their symbol,
      the others become `I` or `O`. */
  function Mark(g: Grid, pipes: seq<Coord>, i: int, j: int): char
    requires g != [] && 0 <= i < |g| && 0 <= j < |g[i]|
  {
    if (i, j) in pipes then g[i][j]
    else if Ray(g, pipes, i, j) % 2 == 1 then 'I' else 'O'
  }

  /** One row of `main`'s double loop. */
  method ClassifyRow(maze: array2<char>, pipes: seq<Coord>, i: nat, ghost orig: Grid)
    requires 0 <= i < maze.Length0 && Charted(pipes, maze.Length0, maze.Length1)
    requires |orig| == maze.Length0 && Rect(orig, maze.Length1) && LoopKept(orig, maze, pipes)
    modifies maze
    ensures forall j :: 0 <= j < maze.Length1 ==> maze[i, j] == Mark(orig, pipes, i, j)
    ensures forall r, j :: 0 <= r < maze.Length0 && r != i && 0 <= j < maze.Length1 ==> maze[r, j] == old(maze[r, j])
    ensures forall k :: 0 <= k < |pipes| && 0 <= pipes[k].0 < maze.Length0 && 0 <= pipes[k].1 < maze.Length1 ==>
      maze[pipes[k].0, pipes[k].1] == old(maze[pipes[k].0, pipes[k].1])
  {
    for j := 0 to maze.Length1
      invariant forall c :: 0 <= c < j ==> maze[i, c] == Mark(orig, pipes, i, c)
      invariant forall r, c :: 0 <= r < maze.Length0 && 0 <= c < maze.Length1 && (r != i || j <= c) ==> maze[r, c] == old(maze[r, c])
      invariant forall k :: 0 <= k < |pipes| && 0 <= pipes[k].0 < maze.Length0 && 0 <= pipes[k].1 < maze.Length1 ==>
        maze[pipes[k].0, pipes[k].1] == old(maze[pipes[k].0, pipes[k].1])
    {
      if (i, j) in pipes {
        continue;
      }
      var inside := IsPointInPoly(maze, pipes, i, j);
      RayReadsLoop(Rows(maze), orig, pipes, i, j);
      if inside {
        maze[i, j] := 'I';
      } else {
        maze[i, j] := 'O';
      }
    }
  }

  /** `main`'s double loop: every tile off the loop becomes `I` when the
      ray from it crosses the loop an odd number of times, `O` otherwise. */
  method Classify(maze: array2<char>, pipes: seq<Coord>)
    requires maze.Length0 > 0 && Charted(pipes, maze.Length0, maze.Length1)
    modifies maze
    ensures forall i, j :: 0 <= i < maze.Length0 && 0 <= j < maze.Length1 ==> maze[i, j] == Mark(old(Rows(maze)), pipes, i, j)
  {
    ghost var orig := Rows(maze);
    for i := 0 to maze.Length0
      invariant forall r, j :: 0 <= r < i && 0 <= j < maze.Length1 ==> maze[r, j] == Mark(orig, pipes, r, j)
      invariant forall r, j :: i <= r < maze.Length0 && 0 <= j < maze.Length1 ==> maze[r, j] == orig[r][j]
      invariant LoopKept(orig, maze, pipes)
    {
      ClassifyRow(maze, pipes, i, orig);
    }
  }

  /** How many tiles `(i, c)` with `c < j` of row `i` satisfy `keep`. */
  function RowCount(row: seq<char>, i: int, keep: (int, int, char) -> bool, j: nat): nat
    requires j <= |row|
  {
    if j == 0 then 0 else RowCount(row, i, keep, j - 1) + (if keep(i, j - 1, row[j - 1]) then 1 else 0)
  }

  /** How many tiles of the first `n` rows satisfy `keep`. */
  function GridCount(g: Grid, keep: (int, int, char) -> bool, n: nat): nat
    requires n <= |g|
  {
    if n == 0 then 0 else GridCount(g, keep, n - 1) + RowCount(g[n - 1], n - 1, keep, |g[n - 1]|)
  }

  /** What `count_enclosed` counts: tiles off the loop not flooded. */
  function Unflooded(pipes: seq<Coord>): (int, int, char) -> bool
  {
    (i, j, ch) => ch != 'O' && (i, j) !in pipes
  }

  /** The tiles off the loop whose ray crosses it an odd number of times. */
  function Enclosed(g: Grid, pipes: seq<Coord>): (int, int, char) -> bool
  {
    (i, j, ch) => (i, j) !in pipes && g != [] && Ray(g, pipes, i, j) % 2 == 1
  }

  /** Counts over two grids of one shape agree when the selections agree
      tile by tile. */
  lemma {:induction false} CountsAgree(g1: Grid, k1: (int, int, char) -> bool, g2: Grid, k2: (int, int, char) -> bool, n: nat)
    requires n <= |g1| == |g2| && forall r :: 0 <= r < |g1| ==> |g1[r]| == |g2[r]|
    requires forall r, c :: 0 <= r < |g1| && 0 <= c < |g1[r]| ==> k1(r, c, g1[r][c]) == k2(r, c, g2[r][c])
    ensures GridCount(g1, k1, n) == GridCount(g2, k2, n)
  {
    if n > 0 {
      CountsAgree(g1, k1, g2, k2, n - 1);
      var r := n - 1;
      for j := 0 to |g1[r]|
        invariant RowCount(g1[r], r, k1, j) == RowCount(g2[r], r, k2, j)
      {
      }
    }
  }

  /** `count_enclosed`: every tile neither flooded nor on the loop is
      counted and marked `I`. */
  method CountEnclosed(maze: array2<char>, pipes: seq<Coord>) returns (n: nat)
    modifies maze
    ensures n == GridCount(old(Rows(maze)), Unflooded(pipes), maze.Length0)
    ensures forall i, j :: 0 <= i < maze.Length0 && 0 <= j < maze.Length1 ==>
      maze[i, j] == if Unflooded(pipes)(i, j, old(maze[i, j])) then 'I' else old(maze[i, j])
  {
    ghost var orig := Rows(maze);
    n := 0;
    for i := 0 to maze.Length0
      invariant n == GridCount(orig, Unflooded(pipes), i)
      invariant forall r, j :: 0 <= r < maze.Length0 && 0 <= j < maze.Length1 ==>
        maze[r, j] == if r < i && Unflooded(pipes)(r, j, orig[r][j]) then 'I' else orig[r][j]
    {
      var counted := CountRow(maze, pipes, i, orig);
      n := n + counted;
    }
  }

  /** The inner loop of `count_enclosed`: row `i` marks and counts its
      tiles off the loop that are not flooded. */
  method CountRow(maze: array2<char>, pipes: seq<Coord>, i: nat, ghost orig: Grid) returns (n: nat)
    requires i < maze.Length0 && |orig| == maze.Length0 && forall r :: 0 <= r < |orig| ==> |orig[r]| == maze.Length1
    requires forall r, j :: 0 <= r < maze.Length0 && 0 <= j < maze.Length1 ==>
      maze[r, j] == if r < i && Unflooded(pipes)(r, j, orig[r][j]) then 'I' else orig[r][j]
    modifies maze
    ensures n == RowCount(orig[i], i, Unflooded(pipes), maze.Length1)
    ensures forall r, j :: 0 <= r < maze.Length0 && 0 <= j < maze.Length1 ==>
      maze[r, j] == if r < i + 1 && Unflooded(pipes)(r, j, orig[r][j]) then 'I' else orig[r][j]
  {
    n := 0;
    for j := 0 to maze.Length1
      invariant n == RowCount(orig[i], i, Unflooded(pipes), j)
      invariant forall r, c :: 0 <= r < maze.Length0 && 0 <= c < maze.Length1 ==>
        maze[r, c] == if (r < i || (r == i && c < j)) && Unflooded(pipes)(r, c, orig[r][c]) then 'I' else orig[r][c]
    {
      if maze[i, j] != 'O' && (i, j) !in pipes {
        n := n + 1;
        maze[i, j] := 'I';
      }
    }
  }

  /** After `main`'s marking, the tiles `count_enclosed` counts are the
      enclosed tiles of the original maze. */
  lemma MarkedEnclosed(g: Grid, m: Grid, pipes: seq<Coord>)
    requires g != [] && |m| == |g| && Rect(g, |g[0]|) && Rect(m, |g[0]|)
    requires forall i, j :: 0 <= i < |g| && 0 <= j < |g[0]| ==> m[i][j] == Mark(g, pipes, i, j)
    ensures GridCount(m, Unflooded(pipes), |m|) == GridCount(g, Enclosed(g, pipes), |g|)
  {
    CountsAgree(m, Unflooded(pipes), g, Enclosed(g, pipes), |m|);
  }

  /** Part two's answer: the enclosed tiles; `None` where the source
      raises (the walk's `return 0` fails at the first `in`) or the fuel
      runs out. */
  function EnclosedCount(g: Grid, fuel: nat): Option<nat>
  {
    match AnimalIn(g, |g|)
    case None => None
    case Some(a) =>
      match Walk(g, a, 'S', a, fuel)
      case Closed(t) => Some(GridCount(g, Enclosed(g, t), |g|))
      case _ => None
  }

  /** Part two's `main`: walk the loop, mark every other tile, count. */
  method PartTwo(maze: array2<char>, fuel: nat) returns (r: Option<nat>)
    requires maze.Length0 > 0
    modifies maze
    ensures r == EnclosedCount(old(Rows(maze)), fuel)
  {
    var g := Rows(maze);
    var o := GetPipeCoordinates(g, fuel);
    if !o.Closed? {
      return None;
    }
    var a := AnimalIn(g, |g|).value;
    ClosedCharted(g, a, 'S', a, fuel, maze.Length1);
    Classify(maze, o.trail);
    ghost var marked := Rows(maze);
    var n := CountEnclosed(maze, o.trail);
    MarkedEnclosed(g, marked, o.trail);
    return Some(n);
  }
}
