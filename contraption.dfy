/** Day 16 (D16/d16p1.py, D16/d16p2.py): light beams bouncing around a
    contraption of mirrors (`/`, `\`) and splitters (`-`, `|`). A work
    list of beams is walked with Python's delete-while-enumerating
    semantics; a cache of (row, column, heading) states makes each state
    processed once, and every processed tile is energized. The answer is
    the number of energized tiles; part two maximises it over the beams
    entering from the edges. */
module Contraption {

  datatype Heading = E | N | W | S

  /** A beam `(row, column, heading)`. */
  type Beam = (int, int, Heading)

  /** The contraption, one row of tiles per line. */
  type Layout = seq<seq<char>>

  /** The source indexes every row with bounds taken from the first one:
      the rows must be as wide as the first and there must be one. */
  predicate Rectangular(data: Layout)
  {
    |data| > 0 && forall r :: 0 <= r < |data| ==> |data[r]| == |data[0]|
  }

  /** The bounds test of the beam loop. */
  predicate InGrid(data: Layout, b: Beam)
  {
    0 <= b.0 < |data| && 0 <= b.1 < |data[0]|
  }

  /** The beam one tile further along heading `h` from `(r, c)`. */
  function Ahead(r: int, c: int, h: Heading): Beam
  {
    match h
    case E => (r, c + 1, E)
    case W => (r, c - 1, W)
    case N => (r - 1, c, N)
    case S => (r + 1, c, S)
  }

  predicate Horizontal(h: Heading)
  {
    h == E || h == W
  }

  predicate Vertical(h: Heading)
  {
    h == N || h == S
  }

  /** The beams that replace a beam on a tile of the grid: straight on
      through `.` and the pointy side of a splitter, two perpendicular
      beams off the flat side of a splitter, one turned beam off a
      mirror, and none for any other tile. */
  function Next(data: Layout, b: Beam): seq<Beam>
    requires Rectangular(data) && InGrid(data, b)
  {
    var (r, c, h) := b;
    var tile := data[r][c];
    if tile == '.' || (tile == '-' && Horizontal(h)) || (tile == '|' && Vertical(h)) then
      [Ahead(r, c, h)]
    else if (tile == '-' && Vertical(h)) || (tile == '|' && Horizontal(h)) then
      if Horizontal(h) then [(r - 1, c, N), (r + 1, c, S)] else [(r, c - 1, W), (r, c + 1, E)]
    else if (tile == '/' && h == E) || (tile == '\\' && h == W) then
      [(r - 1, c, N)]
    else if (tile == '/' && h == W) || (tile == '\\' && h == E) then
      [(r + 1, c, S)]
    else if (tile == '/' && h == S) || (tile == '\\' && h == N) then
      [(r, c - 1, W)]
    else if (tile == '/' && h == N) || (tile == '\\' && h == S) then
      [(r, c + 1, E)]
    else
      []
  }

  /** Every beam that replaces `b` stands one tile from `b` in its own
      heading; it keeps `b`'s heading exactly on `.` and the pointy side
      of a splitter; a beam splits in two exactly on the flat side of a
      splitter, and then both new beams are perpendicular to it. */
  lemma NextSpec(data: Layout, b: Beam)
    requires Rectangular(data) && InGrid(data, b)
    ensures forall n :: n in Next(data, b) ==> n == Ahead(b.0, b.1, n.2)
    ensures var tile := data[b.0][b.1];
      |Next(data, b)| == 2 <==> (tile == '-' && Vertical(b.2)) || (tile == '|' && Horizontal(b.2))
    ensures |Next(data, b)| == 2 ==> forall n :: n in Next(data, b) ==> Horizontal(n.2) != Horizontal(b.2)
    ensures var tile := data[b.0][b.1];
      (tile == '.' || (tile == '-' && Horizontal(b.2)) || (tile == '|' && Vertical(b.2))) <==>
      Next(data, b) == [Ahead(b.0, b.1, b.2)]
    ensures var tile := data[b.0][b.1];
      Next(data, b) == [] <==> tile !in {'.', '-', '|', '/', '\\'}
  {
  }

  // What a start beam energizes.

  /** `region` holds only beams in the grid, and with each of them every
      beam in the grid that replaces it. */
  ghost predicate Closed(data: Layout, region: set<Beam>)
    requires Rectangular(data)
  {
    forall b :: b in region ==>
      InGrid(data, b) && forall n :: n in Next(data, b) && InGrid(data, n) ==> n in region
  }

  /** `region` holds the start beam when it is in the grid. */
  predicate Seeded(data: Layout, start: Beam, region: set<Beam>)
  {
    InGrid(data, start) ==> start in region
  }

  /** `region` is the least closed set of beams holding the start: the
      states a beam from `start` goes through inside the grid. */
  ghost predicate Least(data: Layout, start: Beam, region: set<Beam>)
    requires Rectangular(data)
  {
    Closed(data, region) && Seeded(data, start, region) &&
    forall other :: Closed(data, other) && Seeded(data, start, other) ==> region <= other
  }

  /** The tiles a set of beams stands on. */
  function Tiles(region: set<Beam>): set<(int, int)>
  {
    set b | b in region :: (b.0, b.1)
  }

  /** `n` tiles are energized by a beam entering at `start`. */
  ghost predicate Energy(data: Layout, start: Beam, n: nat)
    requires Rectangular(data)
  {
    exists region :: Least(data, start, region) && n == |Tiles(region)|
  }

  /** There is one least region, so one energy per start beam. */
  lemma EnergyUnique(data: Layout, start: Beam, n: nat, m: nat)
    requires Rectangular(data) && Energy(data, start, n) && Energy(data, start, m)
    ensures n == m
  {
    var a :| Least(data, start, a) && n == |Tiles(a)|;
    var b :| Least(data, start, b) && m == |Tiles(b)|;
    assert a <= b && b <= a;
    assert a == b;
  }

  // The beam loop.

  /** Every beam state of the grid. */
  function AllBeams(data: Layout): (all: set<Beam>)
    requires |data| > 0
    ensures forall b :: InGrid(data, b) <==> b in all
  {
    var all := set r, c, h | 0 <= r < |data| && 0 <= c < |data[0]| && h in {E, N, W, S} :: (r, c, h);
    assert forall b :: InGrid(data, b) ==> b.2 in {E, N, W, S} && b in all by {
      forall b | InGrid(data, b) ensures b.2 in {E, N, W, S} && b in all {
        assert b.2.E? || b.2.N? || b.2.W? || b.2.S?;
      }
    }
    all
  }

  /** `del beams[i]`. */
  function Delete(beams: seq<Beam>, i: nat): (r: seq<Beam>)
    requires i < |beams|
    ensures |r| == |beams| - 1
    ensures forall x :: x in r ==> x in beams
    ensures forall x :: x in beams ==> x == beams[i] || x in r
  {
    assert beams == beams[..i] + [beams[i]] + beams[i + 1..];
    beams[..i] + beams[i + 1..]
  }

  /** Caching a fresh beam of the grid leaves fewer states unseen. */
  lemma {:induction false} Fewer(all: set<Beam>, cache: set<Beam>, b: Beam)
    requires b in all && b !in cache
    ensures |all - (cache + {b})| < |all - cache|
  {
    assert all - (cache + {b}) == (all - cache) - {b};
  }

  /** What the loop keeps: the cache and the live beams lie inside every
      closed region holding the start; the start, and each beam that
      replaces a cached beam in the grid, is cached or still live; and
      the energized tiles are those of the cached beams. */
  ghost predicate Invariant(data: Layout, start: Beam, beams: seq<Beam>, cache: set<Beam>, energized: set<(int, int)>)
    requires Rectangular(data)
  {
    (forall b :: b in cache ==> InGrid(data, b)) &&
    (forall region :: Closed(data, region) && Seeded(data, start, region) ==>
      cache <= region && forall b :: b in beams && InGrid(data, b) ==> b in region) &&
    (InGrid(data, start) ==> start in cache || start in beams) &&
    (forall b, n :: b in cache && n in Next(data, b) && InGrid(data, n) ==> n in cache || n in beams) &&
    energized == Tiles(cache)
  }

  /** One turn of the `for` loop over `beams`: the beam at index `i`
      leaves the list when it is out of the grid or cached; otherwise it
      is cached, energizes its tile and is replaced in place by the beam
      that follows it, by nothing when it splits (its two beams are
      appended), or stays when its tile is unknown. The next turn looks
      at index `i + 1` either way, as Python's list iterator does. */
  method Visit(data: Layout, ghost start: Beam, beams: seq<Beam>, i: nat, cache: set<Beam>, energized: set<(int, int)>)
    returns (beams': seq<Beam>, cache': set<Beam>, energized': set<(int, int)>)
    requires Rectangular(data) && i < |beams|
    requires Invariant(data, start, beams, cache, energized)
    ensures Invariant(data, start, beams', cache', energized')
    ensures var b := beams[i];
      if !InGrid(data, b) || b in cache then cache' == cache && beams' == Delete(beams, i)
      else cache' == cache + {b} && beams' == Rewire(beams, i, Next(data, b))
  {
    var b := beams[i];
    if b.0 < 0 || b.0 >= |data| || b.1 < 0 || b.1 >= |data[0]| {
      beams', cache', energized' := Delete(beams, i), cache, energized;
      return;
    }
    if b in cache {
      beams', cache', energized' := Delete(beams, i), cache, energized;
      return;
    }
    cache' := cache + {b};
    energized' := energized + {(b.0, b.1)};
    var next := Next(data, b);
    beams' := Rewire(beams, i, next);
    RewireKeeps(data, start, beams, i, next, cache);
  }

  /** The list after the beam at `i` is replaced by `next`: in place when
      it is one beam, appended and deleted when two, left as it is when
      none. */
  function Rewire(beams: seq<Beam>, i: nat, next: seq<Beam>): (r: seq<Beam>)
    requires i < |beams| && |next| <= 2
    ensures |beams| <= |r| <= |beams| + 1
    ensures forall x :: x in r ==> x in beams || x in next
    ensures forall x :: x in beams ==> x == beams[i] || x in r
    ensures forall x :: x in next ==> x in r
  {
    if |next| == 1 then
      assert forall x :: x in beams ==> x == beams[i] || x in beams[i := next[0]] by {
        forall x | x in beams ensures x == beams[i] || x in beams[i := next[0]] {
          var k :| 0 <= k < |beams| && beams[k] == x;
          if k != i {
            assert beams[i := next[0]][k] == x;
          }
        }
      }
      assert beams[i := next[0]][i] == next[0];
      beams[i := next[0]]
    else if |next| == 2 then
      var r := Delete(beams + next, i);
      assert (beams + next)[|beams|] == next[0] && (beams + next)[|beams| + 1] == next[1];
      r
    else
      beams
  }

  /** Processing a fresh beam keeps the loop's invariant. */
  lemma RewireKeeps(data: Layout, start: Beam, beams: seq<Beam>, i: nat, next: seq<Beam>, cache: set<Beam>)
    requires Rectangular(data) && i < |beams| && InGrid(data, beams[i]) && beams[i] !in cache
    requires next == Next(data, beams[i])
    requires Invariant(data, start, beams, cache, Tiles(cache))
    ensures Invariant(data, start, Rewire(beams, i, next), cache + {beams[i]}, Tiles(cache) + {(beams[i].0, beams[i].1)})
  {
    var b := beams[i];
    var r := Rewire(beams, i, next);
    assert Tiles(cache + {b}) == Tiles(cache) + {(b.0, b.1)};
    forall region | Closed(data, region) && Seeded(data, start, region)
      ensures cache + {b} <= region && forall x :: x in r && InGrid(data, x) ==> x in region
    {
      assert b in region;
    }
  }

  /** Once no beam is live, the cache is the least closed region. */
  lemma Settled(data: Layout, start: Beam, cache: set<Beam>, energized: set<(int, int)>)
    requires Rectangular(data) && Invariant(data, start, [], cache, energized)
    ensures Least(data, start, cache) && energized == Tiles(cache) && Energy(data, start, |energized|)
  {
    assert Closed(data, cache);
  }

  /** `get_energy_value` (and the loop of part one's `main` from
      `(0, 0, 'E')`): the number of tiles energized by the beam
      entering at `start`, each beam state being processed once. */
  method EnergyValue(data: Layout, start: Beam) returns (energy: nat, ghost cache: set<Beam>, ghost visits: nat)
    requires Rectangular(data)
    ensures Energy(data, start, energy)
    ensures Least(data, start, cache) && energy == |Tiles(cache)| && visits == |cache|
  {
    var beams: seq<Beam> := [start];
    var energized: set<(int, int)> := {};
    var seen: set<Beam> := {};
    visits := 0;
    ghost var all := AllBeams(data);
    while beams != []
      invariant Invariant(data, start, beams, seen, energized)
      invariant seen <= all && visits == |seen|
      decreases |all - seen|, |beams|
    {
      beams, seen, energized, visits := Sweep(data, start, beams, seen, energized, all, visits);
    }
    cache := seen;
    energy := |energized|;
    Settled(data, start, seen, energized);
  }

  /** One run of `for beam_id, beam in enumerate(beams)` over a list
      that shrinks and grows under it; it leaves fewer unseen states, or
      as many and fewer live beams. */
  method Sweep(data: Layout, ghost start: Beam, beams: seq<Beam>, seen: set<Beam>, energized: set<(int, int)>,
               ghost all: set<Beam>, ghost visits: nat)
    returns (beams': seq<Beam>, seen': set<Beam>, energized': set<(int, int)>, ghost visits': nat)
    requires Rectangular(data) && beams != [] && all == AllBeams(data)
    requires Invariant(data, start, beams, seen, energized) && seen <= all && visits == |seen|
    ensures Invariant(data, start, beams', seen', energized') && seen' <= all && visits' == |seen'|
    ensures |all - seen'| < |all - seen| || (|all - seen'| == |all - seen| && |beams'| < |beams|)
  {
    beams', seen', energized', visits' := beams, seen, energized, visits;
    var i := 0;
    while i < |beams'|
      invariant i <= |beams'| + 1
      invariant Invariant(data, start, beams', seen', energized')
      invariant seen' <= all && visits' == |seen'|
      invariant i == 0 ==> seen' == seen && beams' == beams
      invariant i > 0 ==> |all - seen'| < |all - seen| || (|all - seen'| == |all - seen| && |beams'| < |beams|)
      decreases |all - seen'|, |beams'| + 1 - i
    {
      if InGrid(data, beams'[i]) && beams'[i] !in seen' {
        Fewer(all, seen', beams'[i]);
        visits' := visits' + 1;
      }
      beams', seen', energized' := Visit(data, start, beams', i, seen', energized');
      i := i + 1;
    }
  }


  // Part two's entry beams.

  /** The entry beams as the source builds them: per column `(0, i, 'S')`
      and `(0, len(data) - 1, 'N')`, then per row `(j, 0, 'E')` and
      `(j, len(data[0]) - 1, 'W')`. The second beam is meant to enter the
      bottom row heading north, but sits at row 0, column
      `len(data) - 1`. */
  function EntriesAsWritten(data: Layout): seq<Beam>
    requires |data| > 0
  {
    ColumnsAsWritten(data, |data[0]|) + RowEntries(data, |data|)
  }

  function ColumnsAsWritten(data: Layout, k: nat): seq<Beam>
    requires |data| > 0
  {
    if k == 0 then [] else ColumnsAsWritten(data, k - 1) + [(0, k - 1, S), (0, |data| - 1, N)]
  }

  /** The entries through the first `k` columns: down from the top row,
      up from the bottom row. */
  function ColumnEntries(data: Layout, k: nat): seq<Beam>
    requires |data| > 0
  {
    if k == 0 then [] else ColumnEntries(data, k - 1) + [(0, k - 1, S), (|data| - 1, k - 1, N)]
  }

  /** The entries through the first `k` rows: east from the left column,
      west from the right column. */
  function RowEntries(data: Layout, k: nat): seq<Beam>
    requires |data| > 0
  {
    if k == 0 then [] else RowEntries(data, k - 1) + [(k - 1, 0, E), (k - 1, |data[0]| - 1, W)]
  }

  /** The entry beams: one into every edge tile from outside, heading
      away from that edge. */
  function Entries(data: Layout): seq<Beam>
    requires |data| > 0
  {
    ColumnEntries(data, |data[0]|) + RowEntries(data, |data|)
  }

  /** A beam enters from an edge. */
  predicate EdgeEntry(data: Layout, b: Beam)
    requires |data| > 0
  {
    var (r, c, h) := b;
    (0 <= c < |data[0]| && ((r == 0 && h == S) || (r == |data| - 1 && h == N))) ||
    (0 <= r < |data| && ((c == 0 && h == E) || (c == |data[0]| - 1 && h == W)))
  }

  lemma {:induction false} ColumnEntriesSpec(data: Layout, k: nat, b: Beam)
    requires |data| > 0
    ensures b in ColumnEntries(data, k) <==>
      0 <= b.1 < k && ((b.0 == 0 && b.2 == S) || (b.0 == |data| - 1 && b.2 == N))
  {
    if k > 0 {
      ColumnEntriesSpec(data, k - 1, b);
    }
  }

  lemma {:induction false} RowEntriesSpec(data: Layout, k: nat, b: Beam)
    requires |data| > 0
    ensures b in RowEntries(data, k) <==>
      0 <= b.0 < k && ((b.1 == 0 && b.2 == E) || (b.1 == |data[0]| - 1 && b.2 == W))
  {
    if k > 0 {
      RowEntriesSpec(data, k - 1, b);
    }
  }

  /** The entry beams are exactly the beams entering from an edge. */
  lemma EntriesSpec(data: Layout, b: Beam)
    requires |data| > 0
    ensures b in Entries(data) <==> EdgeEntry(data, b)
  {
    ColumnEntriesSpec(data, |data[0]|, b);
    RowEntriesSpec(data, |data|, b);
  }

  /** On a two-by-two contraption the source never tries the beam
      entering the bottom-left tile heading north. */
  lemma BottomEntryMissed()
    ensures (1, 0, N) !in EntriesAsWritten([['.', '.'], ['.', '.']])
    ensures (1, 0, N) in Entries([['.', '.'], ['.', '.']])
  {
    var data := [['.', '.'], ['.', '.']];
    assert ColumnsAsWritten(data, 2) == [(0, 0, S), (0, 1, N), (0, 1, S), (0, 1, N)];
    assert RowEntries(data, 2) == [(0, 0, E), (0, 1, W), (1, 0, E), (1, 1, W)];
    EntriesSpec(data, (1, 0, N));
  }

  /** The two loops of `main` that build the entry beams. */
  method EntryBeams(data: Layout) returns (entries: seq<Beam>)
    requires |data| > 0
    ensures entries == Entries(data)
  {
    entries := [];
    for i := 0 to |data[0]|
      invariant entries == ColumnEntries(data, i)
    {
      entries := entries + [(0, i, S), (|data| - 1, i, N)];
    }
    for j := 0 to |data|
      invariant entries == ColumnEntries(data, |data[0]|) + RowEntries(data, j)
    {
      entries := entries + [(j, 0, E), (j, |data[0]| - 1, W)];
    }
  }

  /** Part two's `main`: the highest energy over the entry beams and the
      first entry beam reaching it (`(0, 0, 'E')` while nothing beats
      zero). */
  method MostEnergy(data: Layout) returns (highest: nat, best: Beam)
    requires Rectangular(data)
    ensures forall b, n: nat :: b in Entries(data) && Energy(data, b, n) ==> n <= highest
    ensures highest == 0 ==> best == (0, 0, E)
    ensures highest > 0 ==> best in Entries(data) && Energy(data, best, highest)
  {
    var entries := EntryBeams(data);
    best, highest := (0, 0, E), 0;
    for k := 0 to |entries|
      invariant forall j, n: nat :: 0 <= j < k && Energy(data, entries[j], n) ==> n <= highest
      invariant highest == 0 ==> best == (0, 0, E)
      invariant highest > 0 ==> best in entries && Energy(data, best, highest)
    {
      var energy, cache, visits := EnergyValue(data, entries[k]);
      forall n | Energy(data, entries[k], n)
        ensures n == energy
      {
        EnergyUnique(data, entries[k], n, energy);
      }
      if energy > highest {
        highest, best := energy, entries[k];
      }
    }
    forall b, n: nat | b in entries && Energy(data, b, n)
      ensures n <= highest
    {
      var j :| 0 <= j < |entries| && entries[j] == b;
    }
  }
}
