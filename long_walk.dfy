/** Day 23 (D23/d23p1.py, D23/d23p2.py): the longest hike through a map
    of paths (`.`), forest (`#`) and slopes (`>`, `<`, `^`, `v`), from the
    gap in the top row to the gap in the bottom row. Part one walks the
    map itself, sliding down every slope it steps on; part two flattens
    the slopes, shrinks the map to a graph of junctions joined by
    hallways, and searches that graph. */
module LongWalk {

  import opened Wrappers
  import opened Seqs

  type Maze = seq<string>

  type Pos = (int, int)

  /** Every row is indexed with bounds from the first one. */
  predicate Rectangular(maze: Maze)
  {
    |maze| > 0 && forall r :: 0 <= r < |maze| ==> |maze[r]| == |maze[0]|
  }

  predicate InGrid(maze: Maze, p: Pos)
    requires Rectangular(maze)
  {
    0 <= p.0 < |maze| && 0 <= p.1 < |maze[0]|
  }

  /** `in_bounds_and_not_a_wall`. */
  predicate Open(maze: Maze, p: Pos)
    requires Rectangular(maze)
  {
    InGrid(maze, p) && maze[p.0][p.1] != '#'
  }

  /** The gap in the top row. */
  const Start: Pos := (0, 1)

  /** The gap in the bottom row: second to last column of the last row. */
  function End(maze: Maze): Pos
    requires Rectangular(maze)
  {
    (|maze| - 1, |maze[0]| - 2)
  }

  /** Down, up, right, left: the order in which both parts try the
      neighbours of a tile. */
  function Neighbours(p: Pos): seq<Pos>
  {
    [(p.0 + 1, p.1), (p.0 - 1, p.1), (p.0, p.1 + 1), (p.0, p.1 - 1)]
  }

  predicate IsSlope(ch: char)
  {
    ch == '>' || ch == '<' || ch == '^' || ch == 'v'
  }

  /** The direction a slope sends the walker. */
  function Slide(ch: char): Pos
    requires IsSlope(ch)
  {
    if ch == '>' then (0, 1) else if ch == '<' then (0, -1) else if ch == '^' then (-1, 0) else (1, 0)
  }

  // Part one: hiking the map with its slopes.

  /** One step of a hike: onto a plain tile, or onto a slope and on to the
      tile the slope points at. The tile after a slope is taken as it is,
      without a look at the map, as the source does. */
  datatype Move = Plain(to: Pos) | Slip(slope: Pos, to: Pos)

  /** A move that may be made from `p`. */
  predicate MoveFrom(maze: Maze, p: Pos, m: Move)
    requires Rectangular(maze)
  {
    match m
    case Plain(q) => q in Neighbours(p) && Open(maze, q) && !IsSlope(maze[q.0][q.1])
    case Slip(q, s) =>
      q in Neighbours(p) && Open(maze, q) && IsSlope(maze[q.0][q.1]) &&
      s == (q.0 + Slide(maze[q.0][q.1]).0, q.1 + Slide(maze[q.0][q.1]).1)
  }

  /** Where the hiker stands after the moves. */
  function Here(moves: seq<Move>): Pos
  {
    if moves == [] then Start else moves[|moves| - 1].to
  }

  /** The path as the source records it: the start, then every tile
      stepped on, slopes included. */
  function Tiles(moves: seq<Move>): (path: seq<Pos>)
    ensures |path| > 0 && path[|path| - 1] == Here(moves)
  {
    if moves == [] then [Start]
    else
      var last := moves[|moves| - 1];
      Tiles(moves[..|moves| - 1]) + if last.Plain? then [last.to] else [last.slope, last.to]
  }

  /** The start and every tile a move ends on. */
  function Landings(moves: seq<Move>): seq<Pos>
  {
    [Start] + seq(|moves|, i requires 0 <= i < |moves| => moves[i].to)
  }

  /** A hike: each move may be made from where the one before ended, and
      no move ends where the hike has already stood. */
  predicate Hike(maze: Maze, moves: seq<Move>)
    requires Rectangular(maze)
  {
    (forall i :: 0 <= i < |moves| ==> MoveFrom(maze, Here(moves[..i]), moves[i])) &&
    Distinct(Landings(moves))
  }

  /** Some hike from the start to the end has `n` steps. */
  ghost predicate HikeOf(maze: Maze, n: int)
    requires Rectangular(maze)
  {
    exists moves :: Hike(maze, moves) && Here(moves) == End(maze) && |Tiles(moves)| == n + 1
  }

  /** A path on the search stack, with its own `visited` set. */
  type Branch = (seq<Pos>, set<Pos>)

  /** The path of a branch follows a hike whose landings it has visited. */
  predicate Follows(maze: Maze, b: Branch, moves: seq<Move>)
    requires Rectangular(maze)
  {
    Hike(maze, moves) && b.0 == Tiles(moves) &&
    forall i :: 0 <= i < |Landings(moves)| ==> Landings(moves)[i] in b.1
  }

  /** Every branch on the stack follows the hike beside it. */
  predicate Branched(maze: Maze, paths: seq<Branch>, hikes: seq<seq<Move>>)
    requires Rectangular(maze)
  {
    |hikes| == |paths| && forall i :: 0 <= i < |paths| ==> Follows(maze, paths[i], hikes[i])
  }

  lemma BranchedPush(maze: Maze, paths: seq<Branch>, hikes: seq<seq<Move>>, b: Branch, moves: seq<Move>)
    requires Rectangular(maze) && Branched(maze, paths, hikes) && Follows(maze, b, moves)
    ensures Branched(maze, paths + [b], hikes + [moves])
  {
  }

  lemma BranchedPop(maze: Maze, paths: seq<Branch>, hikes: seq<seq<Move>>)
    requires Rectangular(maze) && Branched(maze, paths, hikes) && paths != []
    ensures Branched(maze, paths[..|paths| - 1], hikes[..|hikes| - 1])
    ensures Follows(maze, paths[|paths| - 1], hikes[|hikes| - 1])
  {
  }

  /** One more move keeps a hike a hike when it lands off the visited set. */
  lemma Extend(maze: Maze, b: Branch, moves: seq<Move>, m: Move, visited: set<Pos>)
    requires Rectangular(maze) && Follows(maze, b, moves) && b.1 <= visited
    requires MoveFrom(maze, Here(moves), m) && m.to !in visited
    ensures Follows(maze, (b.0 + (if m.Plain? then [m.to] else [m.slope, m.to]), visited + {m.to}), moves + [m])
  {
    var moves' := moves + [m];
    MovesSnoc(maze, moves, m);
    LandingsSnoc(moves, m);
    var ls := Landings(moves);
    assert m.to !in ls;
    DistinctSnoc(ls, m.to);
    assert moves'[..|moves|] == moves;
    assert Tiles(moves') == b.0 + (if m.Plain? then [m.to] else [m.slope, m.to]);
    assert Hike(maze, moves');
  }

  lemma DistinctSnoc<T>(xs: seq<T>, x: T)
    requires Distinct(xs) && x !in xs
    ensures Distinct(xs + [x])
  {
  }

  lemma MovesSnoc(maze: Maze, moves: seq<Move>, m: Move)
    requires Rectangular(maze) && forall i :: 0 <= i < |moves| ==> MoveFrom(maze, Here(moves[..i]), moves[i])
    requires MoveFrom(maze, Here(moves), m)
    ensures forall i :: 0 <= i < |moves| + 1 ==> MoveFrom(maze, Here((moves + [m])[..i]), (moves + [m])[i])
  {
    var moves' := moves + [m];
    assert moves'[..|moves|] == moves;
    forall i | 0 <= i < |moves'| ensures MoveFrom(maze, Here(moves'[..i]), moves'[i]) {
      if i < |moves| {
        assert moves'[..i] == moves[..i];
      }
    }
  }

  lemma LandingsSnoc(moves: seq<Move>, m: Move)
    ensures Landings(moves + [m]) == Landings(moves) + [m.to]
  {
  }

  /** The `for` loop over the four neighbours of the last tile of a
      branch. Each neighbour that is accepted is added to `visited` before
      the next is tried, so a later sibling may not step where an earlier
      one did. */
  method Branches(maze: Maze, b: Branch, ghost moves: seq<Move>, paths: seq<Branch>, ghost hikes: seq<seq<Move>>)
    returns (paths': seq<Branch>, ghost hikes': seq<seq<Move>>)
    requires Rectangular(maze) && Follows(maze, b, moves)
    requires Branched(maze, paths, hikes)
    ensures Branched(maze, paths', hikes')
  {
    var visited := b.1;
    var ns := Neighbours(b.0[|b.0| - 1]);
    paths', hikes' := paths, hikes;
    for k := 0 to 4
      invariant b.1 <= visited
      invariant Branched(maze, paths', hikes')
    {
      paths', visited, hikes' := TryStep(maze, b, moves, ns[k], visited, paths', hikes');
    }
  }

  /** One pass of that loop: the checks on one neighbour, in the source's
      order, and the branch it adds. */
  method TryStep(maze: Maze, b: Branch, ghost moves: seq<Move>, next: Pos, visited: set<Pos>,
                 paths: seq<Branch>, ghost hikes: seq<seq<Move>>)
    returns (paths': seq<Branch>, visited': set<Pos>, ghost hikes': seq<seq<Move>>)
    requires Rectangular(maze) && Follows(maze, b, moves) && b.1 <= visited
    requires next in Neighbours(Here(moves))
    requires Branched(maze, paths, hikes)
    ensures visited <= visited'
    ensures Branched(maze, paths', hikes')
  {
    paths', visited', hikes' := paths, visited, hikes;
    if next.0 < 0 || next.0 >= |maze| || next.1 < 0 || next.1 >= |maze[0]| {
      return;
    }
    if maze[next.0][next.1] == '#' {
      return;
    }
    if next in visited {
      return;
    }
    var ch := maze[next.0][next.1];
    if IsSlope(ch) {
      paths', visited', hikes' := SlideOn(maze, b, moves, next, visited, paths, hikes);
    } else {
      Extend(maze, b, moves, Plain(next), visited);
      visited' := visited + {next};
      BranchedPush(maze, paths, hikes, (b.0 + [next], visited'), moves + [Plain(next)]);
      paths' := paths + [(b.0 + [next], visited')];
      hikes' := hikes + [moves + [Plain(next)]];
    }
  }

  /** A step onto a slope: the walker slides on to the tile it points at,
      unless that tile has been visited. */
  method SlideOn(maze: Maze, b: Branch, ghost moves: seq<Move>, next: Pos, visited: set<Pos>,
                 paths: seq<Branch>, ghost hikes: seq<seq<Move>>)
    returns (paths': seq<Branch>, visited': set<Pos>, ghost hikes': seq<seq<Move>>)
    requires Rectangular(maze) && Follows(maze, b, moves) && b.1 <= visited
    requires next in Neighbours(Here(moves)) && Open(maze, next) && IsSlope(maze[next.0][next.1])
    requires Branched(maze, paths, hikes)
    ensures visited <= visited'
    ensures Branched(maze, paths', hikes')
  {
    paths', visited', hikes' := paths, visited, hikes;
    var slide := Slide(maze[next.0][next.1]);
    var landing := (next.0 + slide.0, next.1 + slide.1);
    if landing !in visited {
      ghost var m := Slip(next, landing);
      assert MoveFrom(maze, Here(moves), m);
      Extend(maze, b, moves, m, visited);
      visited' := visited + {landing};
      var branch := (b.0 + [next, landing], visited');
      assert Follows(maze, branch, moves + [m]);
      BranchedPush(maze, paths, hikes, branch, moves + [m]);
      paths' := paths + [branch];
      hikes' := hikes + [moves + [m]];
    }
  }

  /** `walk_maze`, with at most `fuel` branches taken off the stack; `None`
      once the fuel runs out. The answer is one less than the longest
      path found that ends at the end, -1 when none does, and that path
      is a hike. */
  method WalkMaze(maze: Maze, fuel: nat) returns (r: Option<int>)
    requires Rectangular(maze)
    ensures r.Some? ==> r.value == -1 || (r.value >= 0 && HikeOf(maze, r.value))
  {
    var start := (0, 1);
    var end := (|maze| - 1, |maze[0]| - 2);
    var paths: seq<Branch> := [([start], {start})];
    ghost var hikes: seq<seq<Move>> := [[]];
    var longest: seq<Pos> := [];
    ghost var best: seq<Move> := [];
    var left := fuel;
    while paths != []
      invariant Branched(maze, paths, hikes)
      invariant longest == [] || (Hike(maze, best) && longest == Tiles(best) && Here(best) == end)
      decreases left
    {
      if left == 0 {
        return None;
      }
      left := left - 1;
      var b := paths[|paths| - 1];
      ghost var moves := hikes[|hikes| - 1];
      BranchedPop(maze, paths, hikes);
      paths, hikes := paths[..|paths| - 1], hikes[..|hikes| - 1];
      var path := b.0;
      if |path| > |longest| && path[|path| - 1] == end {
        longest, best := path, moves;
      }
      paths, hikes := Branches(maze, b, moves, paths, hikes);
    }
    return Some(|longest| - 1);
  }

  // Part two: the slopes flattened, the map shrunk to a graph.

  /** A row with every slope replaced by `.`. */
  function Flatten(line: string): (r: string)
    ensures |r| == |line|
    ensures forall i :: 0 <= i < |line| ==> r[i] == if IsSlope(line[i]) then '.' else line[i]
  {
    if line == [] then [] else [if IsSlope(line[0]) then '.' else line[0]] + Flatten(line[1..])
  }

  /** After flattening no slope is left, forest stays forest and nothing
      else becomes forest. */
  lemma FlattenSpec(line: string)
    ensures forall i :: 0 <= i < |line| ==> !IsSlope(Flatten(line)[i])
    ensures forall i :: 0 <= i < |line| ==> (Flatten(line)[i] == '#' <==> line[i] == '#')
    ensures Flatten(Flatten(line)) == Flatten(line)
  {
  }

  /** The slope replacement in part two's `parse_input`, row by row. */
  method FlattenSlopes(maze: Maze) returns (flat: Maze)
    ensures |flat| == |maze| && forall r :: 0 <= r < |maze| ==> flat[r] == Flatten(maze[r])
  {
    flat := maze;
    for row := 0 to |maze|
      invariant |flat| == |maze|
      invariant forall r :: 0 <= r < |maze| ==> flat[r] == if r < row then Flatten(maze[r]) else maze[r]
    {
      flat := flat[row := Flatten(flat[row])];
    }
  }

  /** Flattening keeps the map's shape and where its forest is. */
  lemma FlattenOpen(maze: Maze, flat: Maze, p: Pos)
    requires Rectangular(maze)
    requires |flat| == |maze| && forall r :: 0 <= r < |maze| ==> flat[r] == Flatten(maze[r])
    ensures Rectangular(flat) && (Open(flat, p) <==> Open(maze, p))
  {
    if InGrid(maze, p) {
      FlattenSpec(maze[p.0]);
    }
  }

  /** How many of the tiles are open. */
  function CountOpen(maze: Maze, ps: seq<Pos>): (n: nat)
    requires Rectangular(maze)
    ensures n <= |ps|
  {
    if ps == [] then 0 else CountOpen(maze, ps[..|ps| - 1]) + if Open(maze, ps[|ps| - 1]) then 1 else 0
  }

  /** A node of the graph: an open tile that is not a plain stretch of
      hallway (exactly two open neighbours), or the start or the end. */
  predicate IsNode(maze: Maze, p: Pos)
    requires Rectangular(maze)
  {
    Open(maze, p) && (CountOpen(maze, Neighbours(p)) != 2 || p == Start || p == End(maze))
  }

  /** Row-major order. */
  predicate Before(p: Pos, q: Pos)
  {
    p.0 < q.0 || (p.0 == q.0 && p.1 < q.1)
  }

  /** The node scan of `convert_to_graph`: every node, in reading order. */
  method FindNodes(maze: Maze) returns (nodes: seq<Pos>)
    requires Rectangular(maze)
    ensures forall p :: p in nodes <==> IsNode(maze, p)
    ensures forall a, b :: 0 <= a < b < |nodes| ==> Before(nodes[a], nodes[b])
  {
    nodes := [];
    for i := 0 to |maze|
      invariant forall p :: p in nodes <==> IsNode(maze, p) && Before(p, (i, 0))
      invariant forall a, b :: 0 <= a < b < |nodes| ==> Before(nodes[a], nodes[b])
      invariant forall a :: 0 <= a < |nodes| ==> Before(nodes[a], (i, 0))
    {
      nodes := ScanRow(maze, i, nodes);
    }
  }

  /** One row of the node scan. */
  method ScanRow(maze: Maze, i: nat, nodes: seq<Pos>) returns (nodes': seq<Pos>)
    requires Rectangular(maze) && i < |maze|
    requires forall p :: p in nodes <==> IsNode(maze, p) && Before(p, (i, 0))
    requires forall a, b :: 0 <= a < b < |nodes| ==> Before(nodes[a], nodes[b])
    requires forall a :: 0 <= a < |nodes| ==> Before(nodes[a], (i, 0))
    ensures forall p :: p in nodes' <==> IsNode(maze, p) && Before(p, (i + 1, 0))
    ensures forall a, b :: 0 <= a < b < |nodes'| ==> Before(nodes'[a], nodes'[b])
    ensures forall a :: 0 <= a < |nodes'| ==> Before(nodes'[a], (i + 1, 0))
  {
    var start := (0, 1);
    var end := (|maze| - 1, |maze[0]| - 2);
    nodes' := nodes;
    for j := 0 to |maze[0]|
      invariant forall p :: p in nodes' <==> IsNode(maze, p) && Before(p, (i, j))
      invariant forall a, b :: 0 <= a < b < |nodes'| ==> Before(nodes'[a], nodes'[b])
      invariant forall a :: 0 <= a < |nodes'| ==> Before(nodes'[a], (i, j))
    {
      if maze[i][j] == '#' {
        continue;
      }
      var neighbours := OpenNeighbours(maze, (i, j));
      if neighbours != 2 || (i, j) == start || (i, j) == end {
        nodes' := nodes' + [(i, j)];
      }
    }
    assert forall p :: IsNode(maze, p) ==> p.1 < |maze[0]|;
  }

  /** The neighbour count of the node scan. */
  method OpenNeighbours(maze: Maze, p: Pos) returns (n: nat)
    requires Rectangular(maze)
    ensures n == CountOpen(maze, Neighbours(p))
  {
    var ns := Neighbours(p);
    n := 0;
    for k := 0 to 4
      invariant n == CountOpen(maze, ns[..k])
    {
      if Open(maze, ns[k]) {
        n := n + 1;
      }
      assert ns[..k + 1][..k] == ns[..k];
    }
    assert ns[..4] == ns;
  }

  /** A stretch of hallway: open tiles, each next to the one before, with
      no node strictly between the ends. */
  ghost predicate Corridor(maze: Maze, w: seq<Pos>)
    requires Rectangular(maze)
  {
    |w| > 0 && Open(maze, w[0]) &&
    (forall i :: 0 < i < |w| ==> w[i] in Neighbours(w[i - 1]) && Open(maze, w[i])) &&
    forall i :: 0 < i < |w| - 1 ==> !IsNode(maze, w[i])
  }

  /** A hallway of `cost` steps leads from `a` to `b`. */
  ghost predicate Hallway(maze: Maze, a: Pos, b: Pos, cost: nat)
    requires Rectangular(maze)
  {
    exists w :: |w| == cost + 1 && w[0] == a && w[cost] == b && Corridor(maze, w)
  }

  /** The edges of a node: each leads through a hallway to another node,
      and no node is reached twice. */
  ghost predicate EdgesFrom(maze: Maze, node: Pos, edges: seq<(Pos, nat)>)
    requires Rectangular(maze)
  {
    (forall k :: 0 <= k < |edges| ==>
      IsNode(maze, edges[k].0) && edges[k].0 != node && Hallway(maze, node, edges[k].0, edges[k].1)) &&
    forall a, b :: 0 <= a < b < |edges| ==> edges[a].0 != edges[b].0
  }

  /** The tiles of the map. */
  function Cells(maze: Maze): set<Pos>
    requires Rectangular(maze)
  {
    set r, c | 0 <= r < |maze| && 0 <= c < |maze[0]| :: (r, c)
  }

  /** Each entry of the search stack is reached from `node` by the
      hallway beside it, of as many steps as the entry's cost. */
  ghost predicate Walked(maze: Maze, node: Pos, stack: seq<(Pos, nat)>, walks: seq<seq<Pos>>)
    requires Rectangular(maze)
  {
    |walks| == |stack| &&
    forall i :: 0 <= i < |stack| ==>
      |walks[i]| == stack[i].1 + 1 && walks[i][0] == node && walks[i][stack[i].1] == stack[i].0 &&
      Corridor(maze, walks[i])
  }

  /** The search from one node in `convert_to_graph`: a depth-first walk
      that stops at every other node it reaches and records the steps it
      took to get there. */
  method NodeEdges(maze: Maze, nodes: seq<Pos>, node: Pos) returns (edges: seq<(Pos, nat)>)
    requires Rectangular(maze) && forall p :: p in nodes <==> IsNode(maze, p)
    requires IsNode(maze, node)
    ensures EdgesFrom(maze, node, edges)
  {
    var stack: seq<(Pos, nat)> := [(node, 0)];
    ghost var walks: seq<seq<Pos>> := [[node]];
    var visited: set<Pos> := {};
    edges := [];
    while stack != []
      invariant Walked(maze, node, stack, walks)
      invariant visited <= Cells(maze)
      invariant visited == {} ==> walks == [[node]]
      invariant visited != {} ==> node in visited
      invariant EdgesFrom(maze, node, edges) && forall k :: 0 <= k < |edges| ==> edges[k].0 in visited
      decreases |Cells(maze) - visited|, |stack|
    {
      var (current, cost) := stack[|stack| - 1];
      ghost var w := walks[|walks| - 1];
      WalkedPop(maze, node, stack, walks);
      stack, walks := stack[..|stack| - 1], walks[..|walks| - 1];
      if current in visited {
        continue;
      }
      assert current in Cells(maze);
      assert Cells(maze) - (visited + {current}) == (Cells(maze) - visited) - {current};
      visited := visited + {current};
      if current in nodes && current != node {
        AddEdge(maze, node, edges, current, cost, w, visited);
        edges := edges + [(current, cost)];
        continue;
      }
      stack, walks := PushOpen(maze, node, current, cost, w, stack, walks);
    }
  }

  lemma WalkedPop(maze: Maze, node: Pos, stack: seq<(Pos, nat)>, walks: seq<seq<Pos>>)
    requires Rectangular(maze) && Walked(maze, node, stack, walks) && stack != []
    ensures Walked(maze, node, stack[..|stack| - 1], walks[..|walks| - 1])
    ensures var w := walks[|walks| - 1]; var e := stack[|stack| - 1];
      |w| == e.1 + 1 && w[0] == node && w[e.1] == e.0 && Corridor(maze, w)
  {
  }

  /** A node reached by a hallway, and not reached before, makes a new edge. */
  lemma AddEdge(maze: Maze, node: Pos, edges: seq<(Pos, nat)>, current: Pos, cost: nat, w: seq<Pos>, visited: set<Pos>)
    requires Rectangular(maze) && EdgesFrom(maze, node, edges)
    requires forall k :: 0 <= k < |edges| ==> edges[k].0 in visited - {current}
    requires IsNode(maze, current) && current != node
    requires |w| == cost + 1 && w[0] == node && w[cost] == current && Corridor(maze, w)
    ensures EdgesFrom(maze, node, edges + [(current, cost)])
  {
    assert Hallway(maze, node, current, cost);
  }

  /** The `for direction in ...` loop: every open neighbour of `current`
      goes on the stack one step further on. */
  method PushOpen(maze: Maze, node: Pos, current: Pos, cost: nat, ghost w: seq<Pos>,
                  stack: seq<(Pos, nat)>, ghost walks: seq<seq<Pos>>)
    returns (stack': seq<(Pos, nat)>, ghost walks': seq<seq<Pos>>)
    requires Rectangular(maze) && Walked(maze, node, stack, walks)
    requires |w| == cost + 1 && w[0] == node && w[cost] == current && Corridor(maze, w)
    requires |w| == 1 || !IsNode(maze, current)
    ensures Walked(maze, node, stack', walks')
  {
    stack', walks' := stack, walks;
    for k := 0 to 4
      invariant Walked(maze, node, stack', walks')
    {
      var next := Neighbours(current)[k];
      if Open(maze, next) {
        Lengthen(maze, w, next);
        stack', walks' := stack' + [(next, cost + 1)], walks' + [w + [next]];
      }
    }
  }

  /** A hallway may go on past a tile that is not a node. */
  lemma Lengthen(maze: Maze, w: seq<Pos>, next: Pos)
    requires Rectangular(maze) && Corridor(maze, w) && (|w| == 1 || !IsNode(maze, w[|w| - 1]))
    requires next in Neighbours(w[|w| - 1]) && Open(maze, next)
    ensures Corridor(maze, w + [next])
  {
    var w' := w + [next];
    forall i | 0 < i < |w'| ensures w'[i] in Neighbours(w'[i - 1]) && Open(maze, w'[i]) {
      if i < |w| {
        assert w'[i] == w[i] && w'[i - 1] == w[i - 1];
      }
    }
  }

  /** The graph: every node with the hallways leaving it. */
  type Graph = map<Pos, seq<(Pos, nat)>>

  /** `convert_to_graph`: the nodes as keys, each with its edges. */
  method ConvertToGraph(maze: Maze) returns (graph: Graph)
    requires Rectangular(maze)
    ensures forall p :: p in graph <==> IsNode(maze, p)
    ensures forall p :: p in graph ==> EdgesFrom(maze, p, graph[p])
  {
    var nodes := FindNodes(maze);
    graph := map p | p in nodes :: [];
    for i := 0 to |nodes|
      invariant forall p :: p in graph <==> p in nodes
      invariant forall p :: p in graph ==> EdgesFrom(maze, p, graph[p])
    {
      var edges := NodeEdges(maze, nodes, nodes[i]);
      graph := graph[nodes[i] := edges];
    }
  }

  /** The end `dfs_graph` looks for, fixed for a map of 141 rows and
      columns. */
  const GraphEnd: Pos := (140, 139)

  /** One leg of a trip through the graph: where it leaves, where it
      arrives and what the edge costs. */
  type Leg = (Pos, Pos, nat)

  /** A trip from the start along edges of the graph. */
  ghost predicate Trip(graph: Graph, legs: seq<Leg>)
  {
    forall i :: 0 <= i < |legs| ==>
      legs[i].0 == (if i == 0 then Start else legs[i - 1].1) &&
      legs[i].0 in graph && (legs[i].1, legs[i].2) in graph[legs[i].0]
  }

  /** The nodes a trip passes, the start first. */
  function Stops(legs: seq<Leg>): seq<Pos>
  {
    [Start] + seq(|legs|, i requires 0 <= i < |legs| => legs[i].1)
  }

  function Cost(legs: seq<Leg>): nat
  {
    if legs == [] then 0 else Cost(legs[..|legs| - 1]) + legs[|legs| - 1].2
  }

  /** A trip to the end that passes no node twice. */
  ghost predicate Goal(graph: Graph, legs: seq<Leg>)
  {
    Trip(graph, legs) && Distinct(Stops(legs)) && Stops(legs)[|legs|] == GraphEnd
  }

  /** `m` is the greatest cost of a trip to the end, 0 when there is none. */
  ghost predicate Longest(graph: Graph, m: nat)
  {
    (m == 0 || exists legs :: Goal(graph, legs) && Cost(legs) == m) &&
    forall legs :: Goal(graph, legs) ==> Cost(legs) <= m
  }

  /** An entry of the search stack: node, cost so far, the nodes before it
      and the set of those nodes. */
  type Entry = (Pos, nat, seq<Pos>, set<Pos>)

  /** The entry is the end of a trip that passes no node twice. */
  ghost predicate Tracks(graph: Graph, e: Entry, legs: seq<Leg>)
  {
    Trip(graph, legs) && Distinct(Stops(legs)) && Stops(legs) == e.2 + [e.0] &&
    Cost(legs) == e.1 && e.3 == Elems(e.2)
  }

  /** Each entry of the stack tracks the trip beside it. */
  ghost predicate Stacked(graph: Graph, stack: seq<Entry>, trips: seq<seq<Leg>>)
  {
    |trips| == |stack| && forall i :: 0 <= i < |stack| ==> Tracks(graph, stack[i], trips[i])
  }

  /** The entry on top of the stack is not on its own path. */
  lemma StackedPop(graph: Graph, stack: seq<Entry>, trips: seq<seq<Leg>>)
    requires Stacked(graph, stack, trips) && stack != []
    ensures Stacked(graph, stack[..|stack| - 1], trips[..|trips| - 1])
    ensures Tracks(graph, stack[|stack| - 1], trips[|trips| - 1])
    ensures stack[|stack| - 1].0 !in stack[|stack| - 1].3
    ensures trips == trips[..|trips| - 1] + [trips[|trips| - 1]]
  {
    var e := stack[|stack| - 1];
    var stops := Stops(trips[|trips| - 1]);
    assert stops[|stops| - 1] == e.0 && stops[..|stops| - 1] == e.2;
  }

  /** Every trip to the end either costs no more than the best so far, or
      starts with the trip of an entry still on the stack. */
  ghost predicate Frontier(graph: Graph, trips: seq<seq<Leg>>, best: nat)
  {
    forall legs :: Goal(graph, legs) ==> Cost(legs) <= best || exists i :: 0 <= i < |trips| && trips[i] <= legs
  }

  lemma StopsPrefix(t: seq<Leg>, legs: seq<Leg>)
    requires t <= legs
    ensures Stops(t) == Stops(legs)[..|t| + 1]
  {
  }

  /** A trip that passes no node twice goes on along an edge to a node it
      has not passed. */
  lemma TrackLeg(graph: Graph, t: seq<Leg>, path: seq<Pos>, current: Pos, neighbor: Pos, weight: nat)
    requires Trip(graph, t) && Distinct(Stops(t)) && Stops(t) == path && path[|path| - 1] == current
    requires current in graph && (neighbor, weight) in graph[current] && neighbor !in Elems(path)
    ensures Tracks(graph, (neighbor, Cost(t) + weight, path, Elems(path)), t + [(current, neighbor, weight)])
  {
    var t' := t + [(current, neighbor, weight)];
    assert t'[..|t|] == t;
    assert Stops(t') == Stops(t) + [neighbor];
  }

  /** Lines 157-162 of `dfs_graph`: the entry's node joins its path and
      visited set, and an entry goes on the stack for every edge to a node
      not yet on the path. */
  method PushNeighbours(graph: Graph, e: Entry, ghost t: seq<Leg>, stack: seq<Entry>, ghost trips: seq<seq<Leg>>)
    returns (stack': seq<Entry>, ghost trips': seq<seq<Leg>>)
    requires e.0 in graph && Tracks(graph, e, t)
    requires Stacked(graph, stack, trips)
    ensures Stacked(graph, stack', trips')
    ensures |trips| <= |trips'| && trips'[..|trips|] == trips
    ensures forall j :: 0 <= j < |graph[e.0]| && graph[e.0][j].0 !in Elems(e.2 + [e.0]) ==>
      exists m :: |trips| <= m < |trips'| && trips'[m] == t + [(e.0, graph[e.0][j].0, graph[e.0][j].1)]
  {
    var (current, cost, path, visited) := e;
    visited := visited + {current};
    path := path + [current];
    assert visited == Elems(path);
    var edges := graph[current];
    stack', trips' := stack, trips;
    for j := 0 to |edges|
      invariant Stacked(graph, stack', trips')
      invariant |trips| <= |trips'| && trips'[..|trips|] == trips
      invariant forall k :: 0 <= k < j && edges[k].0 !in visited ==>
        exists m :: |trips| <= m < |trips'| && trips'[m] == t + [(current, edges[k].0, edges[k].1)]
    {
      var (neighbor, weight) := edges[j];
      if neighbor !in visited {
        TrackLeg(graph, t, path, current, neighbor, weight);
        ghost var prev := trips';
        stack' := stack' + [(neighbor, cost + weight, path, visited)];
        trips' := trips' + [t + [(current, neighbor, weight)]];
        assert trips'[|trips'| - 1] == t + [(current, edges[j].0, edges[j].1)];
        assert forall m :: 0 <= m < |prev| ==> trips'[m] == prev[m];
      }
    }
  }

  /** Taking an entry off the stack and pushing its extensions keeps the
      frontier: a trip to the end through the entry is either the entry's
      own trip, whose cost the best now covers, or goes on along one of
      the pushed edges. */
  lemma FrontierStep(graph: Graph, trips: seq<seq<Leg>>, e: Entry, t: seq<Leg>, trips': seq<seq<Leg>>,
                     best: nat, best': nat)
    requires Frontier(graph, trips + [t], best) && best <= best'
    requires Tracks(graph, e, t) && e.0 in graph
    requires e.0 == GraphEnd ==> e.1 <= best'
    requires |trips| <= |trips'| && trips'[..|trips|] == trips
    requires forall j :: 0 <= j < |graph[e.0]| && graph[e.0][j].0 !in Elems(e.2 + [e.0]) ==>
      exists m :: |trips| <= m < |trips'| && trips'[m] == t + [(e.0, graph[e.0][j].0, graph[e.0][j].1)]
    ensures Frontier(graph, trips', best')
  {
    forall legs: seq<Leg> | Goal(graph, legs) && Cost(legs) > best'
      ensures exists i :: 0 <= i < |trips'| && trips'[i] <= legs
    {
      var i :| 0 <= i < |trips| + 1 && (trips + [t])[i] <= legs;
      if i < |trips| {
        assert trips'[i] == trips[i];
      } else {
        FrontierOne(graph, trips, e, t, trips', best', legs);
      }
    }
  }

  /** The case of `FrontierStep` for a trip through the popped entry. */
  lemma FrontierOne(graph: Graph, trips: seq<seq<Leg>>, e: Entry, t: seq<Leg>, trips': seq<seq<Leg>>,
                    best': nat, legs: seq<Leg>)
    requires Tracks(graph, e, t) && e.0 in graph
    requires e.0 == GraphEnd ==> e.1 <= best'
    requires |trips| <= |trips'|
    requires forall j :: 0 <= j < |graph[e.0]| && graph[e.0][j].0 !in Elems(e.2 + [e.0]) ==>
      exists m :: |trips| <= m < |trips'| && trips'[m] == t + [(e.0, graph[e.0][j].0, graph[e.0][j].1)]
    requires Goal(graph, legs) && Cost(legs) > best' && t <= legs
    ensures exists i :: 0 <= i < |trips'| && trips'[i] <= legs
  {
    var current := e.0;
    StopsPrefix(t, legs);
    assert |t| == |legs| ==> t == legs;
    assert Stops(legs)[|t|] == current;
    assert |t| < |legs|;
    var h: Leg := legs[|t|];
    assert Stops(t)[|t|] == current;
    assert |t| > 0 ==> t[|t| - 1] == legs[|t| - 1];
    assert h.0 == current;
    var j :| 0 <= j < |graph[current]| && graph[current][j] == (h.1, h.2);
    assert Stops(legs)[|t| + 1] == h.1;
    assert h.1 !in Elems(e.2 + [current]);
    var m :| |trips| <= m < |trips'| && trips'[m] == t + [(current, h.1, h.2)];
    assert trips'[m] == legs[..|t| + 1];
  }

  /** `dfs_graph`, with at most `fuel` entries taken off the stack; `None`
      once the fuel runs out or when the search meets a node that is not a
      key of the graph, where the source fails. Otherwise the answer is
      the greatest cost of a trip from the start to the end that passes
      no node twice. */
  method DfsGraph(graph: Graph, fuel: nat) returns (r: Option<nat>)
    ensures r.Some? ==> Longest(graph, r.value)
    ensures Start !in graph ==> r.None?
  {
    var start := (0, 1);
    var end := (140, 139);
    var stack: seq<Entry> := [(start, 0, [], {})];
    ghost var trips: seq<seq<Leg>> := [[]];
    var maxCost := 0;
    ghost var best: seq<Leg> := [];
    var left := fuel;
    forall legs: seq<Leg> | Goal(graph, legs) ensures exists i :: 0 <= i < |trips| && trips[i] <= legs {
      assert trips[0] <= legs;
    }
    while stack != []
      invariant Stacked(graph, stack, trips)
      invariant maxCost == 0 || (Goal(graph, best) && Cost(best) == maxCost)
      invariant Frontier(graph, trips, maxCost)
      invariant Start !in graph ==> stack == [(start, 0, [], {})]
      decreases left
    {
      if left == 0 {
        return None;
      }
      left := left - 1;
      var e := stack[|stack| - 1];
      ghost var t := trips[|trips| - 1];
      ghost var before := maxCost;
      StackedPop(graph, stack, trips);
      stack, trips := stack[..|stack| - 1], trips[..|trips| - 1];
      var (current, cost, _, visited) := e;
      if current == end && cost > maxCost {
        maxCost, best := cost, t;
      }
      // The source skips a node already on the path here; no entry is
      // ever pushed for one.
      assert current !in visited;
      if current !in graph {
        return None;
      }
      ghost var rest := trips;
      stack, trips := PushNeighbours(graph, e, t, stack, trips);
      FrontierStep(graph, rest, e, t, trips, before, maxCost);
    }
    return Some(maxCost);
  }

  /** Part two's `main`: flatten the slopes, build the graph of the
      flattened map, search it. */
  method LongestHike(maze: Maze, fuel: nat) returns (r: Option<nat>, ghost flat: Maze, ghost graph: Graph)
    requires Rectangular(maze)
    ensures |flat| == |maze| && forall i :: 0 <= i < |maze| ==> flat[i] == Flatten(maze[i])
    ensures Rectangular(flat)
    ensures forall p :: p in graph <==> IsNode(flat, p)
    ensures forall p :: p in graph ==> EdgesFrom(flat, p, graph[p])
    ensures r.Some? ==> Longest(graph, r.value)
  {
    var f := FlattenSlopes(maze);
    FlattenOpen(maze, f, Start);
    var g := ConvertToGraph(f);
    r := DfsGraph(g, fuel);
    flat, graph := f, g;
  }
}
