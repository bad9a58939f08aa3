/** Day 17 (D17/d17p1.py, D17/d17p2.py): the least heat loss of a
    crucible from the top-left block to the bottom-right one. A crucible
    moves between `lo` and `hi` blocks in a straight line and then turns
    left or right; the search is a label-correcting Dijkstra over
    (block, heading) states with a table of the best heat loss found so
    far. Part one moves 1 to 3 blocks, part two 4 to 10. */
module Crucible {

  import opened Wrappers

  type Coord = (int, int)

  /** The city's heat-loss digits, one row per line. */
  type City = seq<seq<nat>>

  datatype Heading = E | N | W | S

  /** `turn_vectors`. */
  function Vector(h: Heading): Coord
  {
    match h
    case E => (0, 1)
    case N => (-1, 0)
    case W => (0, -1)
    case S => (1, 0)
  }

  /** `turn_left`. */
  function Left(h: Heading): Heading
  {
    match h
    case E => N
    case N => W
    case W => S
    case S => E
  }

  /** `turn_right`. */
  function Right(h: Heading): Heading
  {
    match h
    case E => S
    case S => W
    case W => N
    case N => E
  }

  /** The bounds test of `get_possible_moves`, against the first row's
      width. */
  predicate InGrid(data: City, c: Coord)
  {
    0 <= c.0 < |data| && 0 <= c.1 < |data[0]|
  }

  /** `data[r][c]` inside the grid, 0 elsewhere (a move whose end is in
      the grid only enters blocks of the grid). The city is taken to be
      rectangular: off a short row this reads 0 where the source raises
      `IndexError`. */
  function Cell(data: City, c: Coord): nat
  {
    if 0 <= c.0 < |data| && 0 <= c.1 < |data[c.0]| then data[c.0][c.1] else 0
  }

  /** The block `i` steps from `loc` along `Vector(h)`, that is
      `loc + Vector(h) * i`. */
  function Dest(loc: Coord, h: Heading, i: int): Coord
  {
    match h
    case E => (loc.0, loc.1 + i)
    case N => (loc.0 - i, loc.1)
    case W => (loc.0, loc.1 - i)
    case S => (loc.0 + i, loc.1)
  }

  /** The heat of the blocks entered on `i` steps from `loc` heading `h`,
      the starting block excluded. */
  function RayHeat(data: City, loc: Coord, h: Heading, i: nat): nat
  {
    if i == 0 then 0 else RayHeat(data, loc, h, i - 1) + Cell(data, Dest(loc, h, i))
  }

  /** A move: the block reached, the heading after it and the heat lost. */
  datatype Move = Move(to: Coord, heading: Heading, heat: nat)

  /** The move of `i` steps in direction `h`, built one block at a
      time. */
  function Candidate(data: City, loc: Coord, h: Heading, i: nat): (m: Move)
    ensures m.heading == h
    decreases i, 1
  {
    Ray(data, loc, h, i)
  }

  /** One more block on the move of `i - 1` steps. */
  function Ray(data: City, loc: Coord, h: Heading, i: nat): (m: Move)
    ensures m.heading == h
    decreases i, 0
  {
    if i == 0 then Move(loc, h, 0)
    else
      var p := Candidate(data, loc, h, i - 1);
      var to := (p.to.0 + Vector(h).0, p.to.1 + Vector(h).1);
      Move(to, h, p.heat + Cell(data, to))
  }

  /** The move of `i` steps ends `i` blocks along `Vector(h)` and loses
      the heat of the blocks on the way. */
  lemma {:induction false} CandidateSpec(data: City, loc: Coord, h: Heading, i: nat)
    ensures Candidate(data, loc, h, i) == Move(Dest(loc, h, i), h, RayHeat(data, loc, h, i))
  {
    if i > 0 {
      CandidateSpec(data, loc, h, i - 1);
    }
  }

  /** The heading a left turn takes: straight on at the origin. */
  function LeftHeading(loc: Coord, h: Heading): Heading
  {
    if loc == (0, 0) then h else Left(h)
  }

  /** The moves of the loop's turns `lo..n`: for each length the left
      move, then the right one, each only when it ends in the grid. */
  function MovesUpTo(data: City, lo: nat, loc: Coord, h: Heading, n: int): seq<Move>
    decreases n - lo
  {
    if n < lo then []
    else MovesUpTo(data, lo, loc, h, n - 1) + InGridMove(data, loc, LeftHeading(loc, h), n) + InGridMove(data, loc, Right(h), n)
  }

  /** The move of `n` steps heading `h`, when it ends in the grid. */
  function InGridMove(data: City, loc: Coord, h: Heading, n: nat): seq<Move>
  {
    var c := Candidate(data, loc, h, n);
    if InGrid(data, c.to) then [c] else []
  }

  /** `get_possible_moves` with `min_steps = lo` and `max_steps = hi`. */
  function Moves(data: City, lo: nat, hi: nat, loc: Coord, h: Heading): seq<Move>
  {
    MovesUpTo(data, lo, loc, h, hi)
  }

  /** The moves the loop lists: `lo` to `n` blocks in a straight line
      to a block of the grid, turning left or right (straight on
      instead of left at the origin), losing the heat of the blocks
      entered. */
  ghost predicate Possible(data: City, lo: nat, loc: Coord, h: Heading, n: int, m: Move)
  {
    InGrid(data, m.to) && (m.heading == LeftHeading(loc, h) || m.heading == Right(h)) &&
    exists i: nat :: lo <= i <= n && m == Candidate(data, loc, m.heading, i)
  }

  /** A possible move goes `lo` to `hi` blocks in a straight line to a
      block of the grid, turning left or right (straight on instead of
      left at the origin), and loses the heat of the blocks it enters;
      every such move is listed. */
  lemma {:induction false} MovesSpec(data: City, lo: nat, loc: Coord, h: Heading, n: int, m: Move)
    ensures m in MovesUpTo(data, lo, loc, h, n) <==> Possible(data, lo, loc, h, n, m)
    decreases n - lo
  {
    if n >= lo {
      var prev := MovesUpTo(data, lo, loc, h, n - 1);
      var last := InGridMove(data, loc, LeftHeading(loc, h), n) + InGridMove(data, loc, Right(h), n);
      assert MovesUpTo(data, lo, loc, h, n) == prev + last;
      assert m in prev + last <==> m in prev || m in last;
      MovesSpec(data, lo, loc, h, n - 1, m);
      if m in last {
        assert m == Candidate(data, loc, m.heading, n);
        assert Possible(data, lo, loc, h, n, m);
      }
      if m in prev {
        var i: nat :| lo <= i <= n - 1 && m == Candidate(data, loc, m.heading, i);
        assert Possible(data, lo, loc, h, n, m);
      }
      if Possible(data, lo, loc, h, n, m) {
        var i: nat :| lo <= i <= n && m == Candidate(data, loc, m.heading, i);
        if i == n {
          assert m in last;
        } else {
          assert Possible(data, lo, loc, h, n - 1, m);
        }
        assert m in prev + last;
      }
    }
  }

  /** Away from the origin a move turns left or right, never straight on
      or back; at the origin it goes straight on or right. */
  lemma MovesTurn(data: City, lo: nat, hi: nat, loc: Coord, h: Heading, m: Move)
    requires m in Moves(data, lo, hi, loc, h)
    ensures loc != (0, 0) ==> m.heading == Left(h) || m.heading == Right(h)
    ensures loc == (0, 0) ==> m.heading == h || m.heading == Right(h)
    ensures m.heading != h || loc == (0, 0)
  {
    MovesSpec(data, lo, loc, h, hi, m);
  }

  /** `get_possible_moves`. */
  method GetPossibleMoves(data: City, lo: nat, hi: nat, loc: Coord, h: Heading) returns (moves: seq<Move>)
    ensures moves == Moves(data, lo, hi, loc, h)
  {
    var lh := LeftHeading(loc, h);
    var rh := Right(h);
    moves := [];
    var i := lo;
    while i <= hi
      invariant lo <= i <= if hi < lo then lo else hi + 1
      invariant moves == MovesUpTo(data, lo, loc, h, i - 1)
    {
      var left := TryMove(data, loc, lh, i);
      var right := TryMove(data, loc, rh, i);
      moves := moves + left + right;
      i := i + 1;
    }
  }

  /** One turn of the loop of `get_possible_moves` for one heading: the
      move of `i` steps when its end is in the grid. */
  method TryMove(data: City, loc: Coord, h: Heading, i: nat) returns (ms: seq<Move>)
    ensures ms == InGridMove(data, loc, h, i)
  {
    var to := Dest(loc, h, i);
    CandidateSpec(data, loc, h, i);
    ms := [];
    if 0 <= to.0 < |data| && 0 <= to.1 < |data[0]| {
      var heat := SumRay(data, loc, h, i);
      ms := [Move(to, h, heat)];
    }
  }

  /** The generator `sum(data[loc[0]][loc[1]] for loc in ...)`. */
  method SumRay(data: City, loc: Coord, h: Heading, i: nat) returns (heat: nat)
    ensures heat == RayHeat(data, loc, h, i)
  {
    heat := 0;
    var j := 1;
    while j <= i
      invariant 1 <= j <= i + 1
      invariant heat == RayHeat(data, loc, h, j - 1)
    {
      heat := heat + Cell(data, Dest(loc, h, j));
      j := j + 1;
    }
  }

  // Routes.

  /** A search state: a block and the heading the crucible arrived with. */
  type State = (Coord, Heading)

  /** The search starts at the top-left block, heading east. */
  const Start: State := ((0, 0), E)

  /** Where a route of moves ends. */
  function EndOf(ms: seq<Move>): State
  {
    if ms == [] then Start else (ms[|ms| - 1].to, ms[|ms| - 1].heading)
  }

  /** The heat a route loses. */
  function Cost(ms: seq<Move>): nat
  {
    if ms == [] then 0 else Cost(ms[..|ms| - 1]) + ms[|ms| - 1].heat
  }

  /** A route from the start: each move is possible from where the moves
      before it end. */
  predicate Route(data: City, lo: nat, hi: nat, ms: seq<Move>)
    decreases |ms|, 1
  {
    ms == [] || Extends(data, lo, hi, ms[..|ms| - 1], ms[|ms| - 1])
  }

  /** `init` is a route and `m` is possible where it ends. */
  predicate Extends(data: City, lo: nat, hi: nat, init: seq<Move>, m: Move)
    decreases |init| + 1, 0
  {
    Route(data, lo, hi, init) && m in Moves(data, lo, hi, EndOf(init).0, EndOf(init).1)
  }

  /** A possible move extends a route, and adds its heat to the cost. */
  lemma RouteSnoc(data: City, lo: nat, hi: nat, ms: seq<Move>, m: Move)
    requires Route(data, lo, hi, ms) && m in Moves(data, lo, hi, EndOf(ms).0, EndOf(ms).1)
    ensures Route(data, lo, hi, ms + [m]) && EndOf(ms + [m]) == (m.to, m.heading)
    ensures Cost(ms + [m]) == Cost(ms) + m.heat
  {
    assert (ms + [m])[..|ms|] == ms;
    assert Extends(data, lo, hi, ms, m);
  }

  // The search.

  /** A queue entry `(heat_loss, location, vector)`. */
  type Entry = (nat, Coord, Heading)

  /** Python's order on the vector strings `'E' < 'N' < 'S' < 'W'`. */
  function Rank(h: Heading): nat
  {
    match h
    case E => 0
    case N => 1
    case S => 2
    case W => 3
  }

  /** Python's tuple order on queue entries. */
  predicate Leq(a: Entry, b: Entry)
  {
    a.0 < b.0 || (a.0 == b.0 &&
      (a.1.0 < b.1.0 || (a.1.0 == b.1.0 &&
        (a.1.1 < b.1.1 || (a.1.1 == b.1.1 && Rank(a.2) <= Rank(b.2))))))
  }

  /** `heapq.heappop`'s choice: the index of a least entry. */
  method PopIndex(queue: seq<Entry>) returns (k: nat)
    requires queue != []
    ensures k < |queue| && forall j :: 0 <= j < |queue| ==> Leq(queue[k], queue[j])
  {
    k := 0;
    var j := 1;
    while j < |queue|
      invariant k < j <= |queue|
      invariant forall i :: 0 <= i < j ==> Leq(queue[k], queue[i])
    {
      if !Leq(queue[k], queue[j]) {
        k := j;
      }
      j := j + 1;
    }
  }

  /** The table `min_heat_loss`, by state; a state not in the map holds
      infinity. */
  type Table = map<State, nat>

  /** Every move from `s` leads to a state whose entry is at most the
      entry of `s` plus the move's heat. */
  predicate RelaxedAt(data: City, lo: nat, hi: nat, table: Table, s: State)
    requires s in table
  {
    forall m :: m in Moves(data, lo, hi, s.0, s.1) ==>
      (m.to, m.heading) in table && table[(m.to, m.heading)] <= table[s] + m.heat
  }

  /** `t` is `table` with entries only added or lowered. */
  predicate Lowered(t: Table, table: Table)
  {
    forall s :: s in table ==> s in t && t[s] <= table[s]
  }

  /** Each entry is the heat of a route to its state. */
  ghost predicate Witnessed(data: City, lo: nat, hi: nat, table: Table, paths: map<State, seq<Move>>)
  {
    forall s :: s in table ==>
      s in paths && Route(data, lo, hi, paths[s]) && EndOf(paths[s]) == s && Cost(paths[s]) == table[s]
  }

  /** Each queue entry is the heat of a route to its state. */
  ghost predicate QueueWitnessed(data: City, lo: nat, hi: nat, queue: seq<Entry>, paths: map<Entry, seq<Move>>)
  {
    forall e :: e in queue ==>
      e in paths && Route(data, lo, hi, paths[e]) && EndOf(paths[e]) == (e.1, e.2) && Cost(paths[e]) == e.0
  }

  /** Every entry is still waiting in the queue with its value, or has
      had all its moves relaxed. */
  predicate Pending(data: City, lo: nat, hi: nat, table: Table, queue: seq<Entry>)
  {
    forall s :: s in table ==> (table[s], s.0, s.1) in queue || RelaxedAt(data, lo, hi, table, s)
  }

  /** Lowering entries keeps a relaxed state relaxed when its own entry
      stays. */
  lemma RelaxedLowered(data: City, lo: nat, hi: nat, t: Table, table: Table, s: State)
    requires s in table && RelaxedAt(data, lo, hi, table, s) && Lowered(t, table) && t[s] == table[s]
    ensures RelaxedAt(data, lo, hi, t, s)
  {
  }

  /** Every entry of `queue` is still in `q`. */
  predicate Kept(q: seq<Entry>, queue: seq<Entry>)
  {
    forall y :: y in queue ==> y in q
  }

  /** The entry of the state `m` leads to is at most `base` plus the
      move's heat. */
  predicate Reached(t: Table, m: Move, base: nat)
  {
    (m.to, m.heading) in t && t[(m.to, m.heading)] <= base + m.heat
  }

  /** Entries of `t` that are new or lower than in `table` are queued in
      `q` with their value. */
  predicate Queued(t: Table, table: Table, q: seq<Entry>)
  {
    forall s :: s in t && (s !in table || t[s] < table[s]) ==> (t[s], s.0, s.1) in q
  }

  /** One turn of the inner `for` loop of `dijkstra`: when the move `m`
      from the popped entry `e` improves on the table, record the new
      heat loss and push it. */
  method RelaxOne(data: City, lo: nat, hi: nat, table: Table, queue: seq<Entry>, e: Entry, m: Move,
                  ghost base: seq<Move>, ghost paths: map<State, seq<Move>>, ghost qpaths: map<Entry, seq<Move>>)
    returns (t: Table, q: seq<Entry>, ghost paths': map<State, seq<Move>>, ghost qpaths': map<Entry, seq<Move>>)
    requires Route(data, lo, hi, base) && EndOf(base) == (e.1, e.2) && Cost(base) == e.0
    requires m in Moves(data, lo, hi, e.1, e.2)
    requires Witnessed(data, lo, hi, table, paths) && QueueWitnessed(data, lo, hi, queue, qpaths)
    ensures Lowered(t, table) && Kept(q, queue) && Reached(t, m, e.0) && Queued(t, table, q)
    ensures Witnessed(data, lo, hi, t, paths') && QueueWitnessed(data, lo, hi, q, qpaths')
  {
    t, q, paths', qpaths' := table, queue, paths, qpaths;
    var key := (m.to, m.heading);
    var total := e.0 + m.heat;
    if key !in table || total < table[key] {
      ghost var route := base + [m];
      RouteSnoc(data, lo, hi, base, m);
      var entry := (total, m.to, m.heading);
      t := table[key := total];
      q := queue + [entry];
      paths' := paths[key := route];
      qpaths' := qpaths[entry := route];
      WitnessRoute(data, lo, hi, table, paths, queue, qpaths, route, total);
    }
  }

  /** Recording a route's heat in the table and pushing it on the queue
      keeps both witnessed. */
  lemma WitnessRoute(data: City, lo: nat, hi: nat, table: Table, paths: map<State, seq<Move>>,
                     queue: seq<Entry>, qpaths: map<Entry, seq<Move>>, route: seq<Move>, total: nat)
    requires Witnessed(data, lo, hi, table, paths) && QueueWitnessed(data, lo, hi, queue, qpaths)
    requires Route(data, lo, hi, route) && Cost(route) == total
    ensures var key := EndOf(route); var entry := (total, key.0, key.1);
      Witnessed(data, lo, hi, table[key := total], paths[key := route])
      && QueueWitnessed(data, lo, hi, queue + [entry], qpaths[entry := route])
  {
  }

  /** The inner `for` loop of `dijkstra`: relax each move from the popped
      entry `e`, lowering the table and pushing each improvement. */
  method RelaxMoves(data: City, lo: nat, hi: nat, table: Table, queue: seq<Entry>, e: Entry, moves: seq<Move>,
                    ghost base: seq<Move>, ghost paths: map<State, seq<Move>>, ghost qpaths: map<Entry, seq<Move>>)
    returns (t: Table, q: seq<Entry>, ghost paths': map<State, seq<Move>>, ghost qpaths': map<Entry, seq<Move>>)
    requires moves == Moves(data, lo, hi, e.1, e.2)
    requires Route(data, lo, hi, base) && EndOf(base) == (e.1, e.2) && Cost(base) == e.0
    requires Witnessed(data, lo, hi, table, paths) && QueueWitnessed(data, lo, hi, queue, qpaths)
    ensures Lowered(t, table) && Kept(q, queue) && Queued(t, table, q)
    ensures forall m :: m in moves ==> Reached(t, m, e.0)
    ensures Witnessed(data, lo, hi, t, paths') && QueueWitnessed(data, lo, hi, q, qpaths')
  {
    t, q, paths', qpaths' := table, queue, paths, qpaths;
    for j := 0 to |moves|
      invariant Lowered(t, table) && Kept(q, queue) && Queued(t, table, q)
      invariant forall i :: 0 <= i < j ==> Reached(t, moves[i], e.0)
      invariant Witnessed(data, lo, hi, t, paths') && QueueWitnessed(data, lo, hi, q, qpaths')
    {
      var t', q';
      ghost var p', qp';
      t', q', p', qp' := RelaxOne(data, lo, hi, t, q, e, moves[j], base, paths', qpaths');
      Compose(table, queue, t, q, t', q');
      KeepReached(t, t', moves, j, e.0);
      t, q, paths', qpaths' := t', q', p', qp';
    }
  }

  /** Two rounds of lowering and queueing make one. */
  lemma Compose(table: Table, queue: seq<Entry>, t: Table, q: seq<Entry>, t': Table, q': seq<Entry>)
    requires Lowered(t, table) && Kept(q, queue) && Queued(t, table, q)
    requires Lowered(t', t) && Kept(q', q) && Queued(t', t, q')
    ensures Lowered(t', table) && Kept(q', queue) && Queued(t', table, q')
  {
  }

  /** Lowering the table keeps the moves relaxed so far relaxed. */
  lemma KeepReached(t: Table, t': Table, moves: seq<Move>, j: nat, b: nat)
    requires j < |moves| && Lowered(t', t) && Reached(t', moves[j], b)
    requires forall i :: 0 <= i < j ==> Reached(t, moves[i], b)
    ensures forall i :: 0 <= i < j + 1 ==> Reached(t', moves[i], b)
  {
  }

  /** When nothing is pending the table is closed under moves, so it
      bounds the heat of every route from below. */
  lemma {:induction false} ClosedBounds(data: City, lo: nat, hi: nat, table: Table, ms: seq<Move>)
    requires Start in table && table[Start] == 0
    requires forall s :: s in table ==> RelaxedAt(data, lo, hi, table, s)
    requires Route(data, lo, hi, ms)
    ensures EndOf(ms) in table && table[EndOf(ms)] <= Cost(ms)
  {
    if ms != [] {
      var init := ms[..|ms| - 1];
      var m := ms[|ms| - 1];
      assert Extends(data, lo, hi, init, m);
      ClosedBounds(data, lo, hi, table, init);
      assert RelaxedAt(data, lo, hi, table, EndOf(init));
    }
  }

  /** The answer: the least heat loss at the bottom-right block, or that
      no route reaches it (the source's `inf`). */
  datatype Loss = Finite(heat: nat) | Infinite

  /** The bottom-right block, `min_heat_loss[-1][-1]`. */
  function Goal(data: City): Coord
    requires |data| > 0
  {
    (|data| - 1, |data[0]| - 1)
  }

  /** `loss` is the least heat loss of the routes to the bottom-right
      block: `Finite(c)` when some route loses `c` and none loses less,
      `Infinite` when no route gets there. */
  ghost predicate Answers(data: City, lo: nat, hi: nat, loss: Loss)
    requires |data| > 0
  {
    match loss
    case Finite(c) =>
      (exists ms :: Route(data, lo, hi, ms) && EndOf(ms).0 == Goal(data) && Cost(ms) == c) &&
      (forall ms :: Route(data, lo, hi, ms) && EndOf(ms).0 == Goal(data) ==> c <= Cost(ms))
    case Infinite =>
      forall ms :: Route(data, lo, hi, ms) ==> EndOf(ms).0 != Goal(data)
  }

  /** `min` of one entry and the best so far. */
  function Better(table: Table, s: State, best: Loss): (r: Loss)
    ensures s in table ==> r.Finite? && r.heat <= table[s]
    ensures best.Finite? ==> r.Finite? && r.heat <= best.heat
    ensures r.Finite? ==> (s in table && r.heat == table[s]) || r == best
    ensures r.Infinite? ==> s !in table && best.Infinite?
  {
    if s !in table then best
    else if best.Finite? && best.heat <= table[s] then best
    else Finite(table[s])
  }

  /** `min(min_heat_loss[-1][-1])` over the four headings. */
  function BestAt(table: Table, g: Coord): (r: Loss)
    ensures r.Finite? ==> exists h: Heading :: (g, h) in table && table[(g, h)] == r.heat
    ensures r.Finite? ==> forall h: Heading :: (g, h) in table ==> r.heat <= table[(g, h)]
    ensures r.Infinite? ==> forall h: Heading :: (g, h) !in table
  {
    var r := Better(table, (g, E), Better(table, (g, N), Better(table, (g, W), Better(table, (g, S), Infinite))));
    assert forall h: Heading :: (g, h) in table ==> r.Finite? && r.heat <= table[(g, h)] by {
      forall h: Heading | (g, h) in table
        ensures r.Finite? && r.heat <= table[(g, h)]
      {
        assert h.E? || h.N? || h.W? || h.S?;
      }
    }
    r
  }

  /** `dijkstra` with `min_steps = lo` and `max_steps = hi`, running at
      most `fuel` turns of its loop (`None` when they run out, or for the
      `IndexError` of an empty grid). The answer is the heat of a route
      to the bottom-right block that no route beats; `Infinite` when no
      route gets there. */
  method Dijkstra(data: City, lo: nat, hi: nat, fuel: nat) returns (r: Option<Loss>)
    ensures r.Some? ==> |data| > 0 && Answers(data, lo, hi, r.value)
  {
    if |data| == 0 || |data[0]| == 0 {
      return None;
    }
    var queue: seq<Entry> := [(0, (0, 0), E)];
    var table: Table := map[Start := 0];
    ghost var paths: map<State, seq<Move>> := map[Start := []];
    ghost var qpaths: map<Entry, seq<Move>> := map[(0, (0, 0), E) := []];
    var left := fuel;
    while queue != []
      invariant Start in table && table[Start] == 0
      invariant Witnessed(data, lo, hi, table, paths) && QueueWitnessed(data, lo, hi, queue, qpaths)
      invariant Pending(data, lo, hi, table, queue)
      decreases left
    {
      if left == 0 {
        return None;
      }
      left := left - 1;
      var k := PopIndex(queue);
      var e := queue[k];
      var rest := queue[..k] + queue[k + 1..];
      assert forall x :: x in queue ==> x == e || x in rest by {
        assert queue == queue[..k] + [e] + queue[k + 1..];
      }
      var moves := GetPossibleMoves(data, lo, hi, e.1, e.2);
      var table', queue';
      ghost var paths', qpaths';
      table', queue', paths', qpaths' := RelaxMoves(data, lo, hi, table, rest, e, moves, qpaths[e], paths, qpaths);
      PendingAfter(data, lo, hi, table, queue, e, rest, table', queue');
      table, queue, paths, qpaths := table', queue', paths', qpaths';
    }
    var best := BestAt(table, Goal(data));
    forall ms | Route(data, lo, hi, ms)
      ensures EndOf(ms) in table && table[EndOf(ms)] <= Cost(ms)
    {
      ClosedBounds(data, lo, hi, table, ms);
    }
    if best.Finite? {
      var h :| (Goal(data), h) in table && table[(Goal(data), h)] == best.heat;
      assert EndOf(paths[(Goal(data), h)]).0 == Goal(data);
    }
    r := Some(best);
  }

  /** One turn of the loop keeps every entry pending or relaxed. */
  lemma PendingAfter(data: City, lo: nat, hi: nat, table: Table, queue: seq<Entry>, e: Entry, rest: seq<Entry>,
                     t: Table, q: seq<Entry>)
    requires Pending(data, lo, hi, table, queue)
    requires forall x :: x in queue ==> x == e || x in rest
    requires Lowered(t, table) && Kept(q, rest) && Queued(t, table, q)
    requires forall m :: m in Moves(data, lo, hi, e.1, e.2) ==> Reached(t, m, e.0)
    ensures Pending(data, lo, hi, t, q)
  {
    forall s | s in t && (t[s], s.0, s.1) !in q
      ensures RelaxedAt(data, lo, hi, t, s)
    {
      assert s in table && t[s] == table[s];
      var x := (table[s], s.0, s.1);
      assert x !in rest;
      if x in queue {
        assert x == e;
      } else {
        RelaxedLowered(data, lo, hi, t, table, s);
      }
    }
  }

  /** Part one: moves of one to three blocks. */
  method PartOne(data: City, fuel: nat) returns (r: Option<Loss>)
    ensures r.Some? ==> |data| > 0 && Answers(data, 1, 3, r.value)
  {
    r := Dijkstra(data, 1, 3, fuel);
  }

  /** Part two: moves of four to ten blocks. */
  method PartTwo(data: City, fuel: nat) returns (r: Option<Loss>)
    ensures r.Some? ==> |data| > 0 && Answers(data, 4, 10, r.value)
  {
    r := Dijkstra(data, 4, 10, fuel);
  }
}
