/** Day 8 (D08/d8p1.py, D08/d8p2.py): following left/right instructions
    through a network of nodes, from `AAA` to `ZZZ` in part one, and in
    part two from every node whose name ends in `A` to a node whose name
    ends in `Z`, the counts then combined by their lcm. */
module Wasteland {

  import opened Wrappers
  import opened Arith

  /** A node's two successors, `{'L': ..., 'R': ...}`. */
  datatype Fork = Fork(left: string, right: string)

  /** The parsed `maps` dict, by node name. */
  type Network = map<string, Fork>

  /** `maps[node][c]`: `None` for the `KeyError` of an unknown node or of
      an instruction other than `L` and `R`. */
  function Follow(net: Network, node: string, c: char): Option<string>
  {
    if node !in net then None
    else if c == 'L' then Some(net[node].left)
    else if c == 'R' then Some(net[node].right)
    else None
  }

  /** The name's last character is `c` (`node_name[-1] == c`). */
  predicate EndsIn(name: string, c: char)
  {
    |name| > 0 && name[|name| - 1] == c
  }

  /** What the traversal stops at: `ZZZ` in part one, any node flagged
      `end` in part two. */
  datatype Goal = Zzz | AnyZ

  /** The loop's test at `node`: part one compares the name, part two
      looks up the node's `end` flag, a `KeyError` for an unknown node. */
  function Check(net: Network, goal: Goal, node: string): Option<bool>
  {
    match goal
    case Zzz => Some(node == "ZZZ")
    case AnyZ => if node in net then Some(EndsIn(node, 'Z')) else None
  }

  /** `traverse_map`'s loop from `node` at step `k`, with at most `fuel`
      more steps: the step count at the goal; `None` for a `KeyError`,
      for the `ZeroDivisionError` of empty instructions, or when the fuel
      runs out. */
  function Traverse(net: Network, steps: string, goal: Goal, node: string, k: nat, fuel: nat): Option<nat>
    decreases fuel
  {
    match Check(net, goal, node)
    case None => None
    case Some(done) =>
      if done then Some(k)
      else if fuel == 0 || |steps| == 0 then None
      else
        match Follow(net, node, steps[k % |steps|])
        case None => None
        case Some(next) => Traverse(net, steps, goal, next, k + 1, fuel - 1)
  }

  /** The node reached from `start` after `k` instructions, read
      cyclically; `None` once a lookup fails. */
  function NodeAt(net: Network, steps: string, start: string, k: nat): Option<string>
  {
    if k == 0 then Some(start)
    else
      match NodeAt(net, steps, start, k - 1)
      case None => None
      case Some(n) => if |steps| == 0 then None else Follow(net, n, steps[(k - 1) % |steps|])
  }

  /** After `m` instructions the walk is at a node that is not the goal. */
  predicate Open(net: Network, steps: string, goal: Goal, start: string, m: nat)
  {
    NodeAt(net, steps, start, m).Some? && Check(net, goal, NodeAt(net, steps, start, m).value) == Some(false)
  }

  /** After `n` instructions the walk is at the goal. */
  predicate Done(net: Network, steps: string, goal: Goal, start: string, n: nat)
  {
    NodeAt(net, steps, start, n).Some? && Check(net, goal, NodeAt(net, steps, start, n).value) == Some(true)
  }

  /** `n` is the first step count at which the walk is at the goal. */
  predicate FirstArrival(net: Network, steps: string, goal: Goal, start: string, n: nat)
  {
    Done(net, steps, goal, start, n) && forall m :: 0 <= m < n ==> Open(net, steps, goal, start, m)
  }

  /** The loop from the node reached after `k` steps answers `n` exactly
      when `n` is within the fuel and the walk is open from `k` up to `n`
      and at the goal at `n`. */
  lemma {:induction false} TraverseFrom(net: Network, steps: string, goal: Goal, start: string, k: nat, fuel: nat, n: nat)
    requires NodeAt(net, steps, start, k).Some?
    ensures Traverse(net, steps, goal, NodeAt(net, steps, start, k).value, k, fuel) == Some(n) <==>
      k <= n <= k + fuel && Done(net, steps, goal, start, n) &&
      forall m :: k <= m < n ==> Open(net, steps, goal, start, m)
    decreases fuel
  {
    var x := NodeAt(net, steps, start, k).value;
    var c := Check(net, goal, x);
    if c == Some(false) && fuel > 0 && |steps| > 0 {
      assert NodeAt(net, steps, start, k + 1) == Follow(net, x, steps[k % |steps|]);
      if NodeAt(net, steps, start, k + 1).Some? {
        TraverseFrom(net, steps, goal, start, k + 1, fuel - 1, n);
        assert Open(net, steps, goal, start, k);
      } else {
        assert !Done(net, steps, goal, start, k + 1) && !Open(net, steps, goal, start, k + 1);
      }
    } else if c == Some(false) {
      if fuel > 0 {
        assert NodeAt(net, steps, start, k + 1).None?;
        assert !Done(net, steps, goal, start, k + 1) && !Open(net, steps, goal, start, k + 1);
      }
    } else {
      assert !Open(net, steps, goal, start, k);
    }
  }

  /** `traverse_map`'s answer from `start` is the first step count at
      which the walk reaches the goal, and it is found whenever that count
      is within the fuel. */
  lemma TraverseIsFirstArrival(net: Network, steps: string, goal: Goal, start: string, fuel: nat, n: nat)
    ensures Traverse(net, steps, goal, start, 0, fuel) == Some(n) <==> n <= fuel && FirstArrival(net, steps, goal, start, n)
  {
    TraverseFrom(net, steps, goal, start, 0, fuel, n);
  }

  /** Each step replaces the node by its successor on the instruction
      `steps[k % len(steps)]`. */
  lemma NodeAtNext(net: Network, steps: string, start: string, k: nat)
    requires |steps| > 0 && NodeAt(net, steps, start, k).Some?
    ensures var x := NodeAt(net, steps, start, k).value;
      var c := steps[k % |steps|];
      NodeAt(net, steps, start, k + 1) ==
        if x !in net || (c != 'L' && c != 'R') then None
        else if c == 'L' then Some(net[x].left)
        else Some(net[x].right)
  {
  }

  /** Part one's `traverse_map`, with at most `fuel` turns of its loop. */
  method TraverseMap(net: Network, steps: string, fuel: nat) returns (r: Option<nat>)
    ensures r == Traverse(net, steps, Zzz, "AAA", 0, fuel)
  {
    r := Walk(net, steps, Zzz, "AAA", fuel);
  }

  /** The `while` loop shared by both parts, from `start`. */
  method Walk(net: Network, steps: string, goal: Goal, start: string, fuel: nat) returns (r: Option<nat>)
    ensures r == Traverse(net, steps, goal, start, 0, fuel)
  {
    var current := start;
    var count: nat := 0;
    while true
      invariant count <= fuel
      invariant Traverse(net, steps, goal, start, 0, fuel) == Traverse(net, steps, goal, current, count, fuel - count)
      decreases fuel - count
    {
      var check := Check(net, goal, current);
      if check.None? {
        return None;
      }
      if check.value {
        return Some(count);
      }
      if count == fuel || |steps| == 0 {
        return None;
      }
      var next := Follow(net, current, steps[count % |steps|]);
      if next.None? {
        return None;
      }
      current := next.value;
      count := count + 1;
    }
  }

  /** The start nodes, `[node_name for node_name in maps if
      maps[node_name]['start']]`, over the dict's keys in order. */
  function Starts(names: seq<string>): (s: seq<string>)
    ensures forall x :: x in s <==> x in names && EndsIn(x, 'A')
  {
    if names == [] then []
    else
      var rest := Starts(names[..|names| - 1]);
      var x := names[|names| - 1];
      assert names == names[..|names| - 1] + [x];
      if EndsIn(x, 'A') then rest + [x] else rest
  }

  /** The per-start step counts, `None` when any walk fails. */
  function CycleLengths(net: Network, steps: string, starts: seq<string>, fuel: nat): Option<seq<nat>>
  {
    if starts == [] then Some([])
    else
      match CycleLengths(net, steps, starts[..|starts| - 1], fuel)
      case None => None
      case Some(ls) =>
        match Traverse(net, steps, AnyZ, starts[|starts| - 1], 0, fuel)
        case None => None
        case Some(n) => Some(ls + [n])
  }

  /** Part two's `traverse_map`: the lcm of the counts of the start nodes
      among `names`, the dict's keys in insertion order. */
  function AllArrive(net: Network, steps: string, names: seq<string>, fuel: nat): Option<nat>
  {
    match CycleLengths(net, steps, Starts(names), fuel)
    case None => None
    case Some(ls) => Some(LcmOf(ls))
  }

  /** The counts line up with the starts; each is the first arrival of
      its start at a node ending in `Z`, and a start, which ends in `A`,
      needs at least one step. */
  lemma {:induction false} CycleLengthsSpec(net: Network, steps: string, starts: seq<string>, fuel: nat)
    requires forall i :: 0 <= i < |starts| ==> EndsIn(starts[i], 'A')
    requires CycleLengths(net, steps, starts, fuel).Some?
    ensures var ls := CycleLengths(net, steps, starts, fuel).value;
      |ls| == |starts| &&
      forall i :: 0 <= i < |ls| ==> 0 < ls[i] <= fuel && FirstArrival(net, steps, AnyZ, starts[i], ls[i])
  {
    if starts != [] {
      var init := starts[..|starts| - 1];
      var s := starts[|starts| - 1];
      CycleLengthsSpec(net, steps, init, fuel);
      var ls := CycleLengths(net, steps, init, fuel).value;
      var n := Traverse(net, steps, AnyZ, s, 0, fuel).value;
      TraverseIsFirstArrival(net, steps, AnyZ, s, fuel, n);
      assert !Done(net, steps, AnyZ, s, 0);
      forall i | 0 <= i < |ls + [n]|
        ensures 0 < (ls + [n])[i] <= fuel && FirstArrival(net, steps, AnyZ, starts[i], (ls + [n])[i])
      {
        if i < |ls| {
          assert starts[i] == init[i];
        }
      }
    }
  }

  /** Part two's answer is a positive common multiple of every start's
      first-arrival count and divides every other one: the first step at
      which all the walks, each repeating its count, are at an end node
      together. */
  lemma AllArriveIsLeast(net: Network, steps: string, names: seq<string>, fuel: nat)
    requires AllArrive(net, steps, names, fuel).Some?
    ensures var ls := CycleLengths(net, steps, Starts(names), fuel).value;
      var r := AllArrive(net, steps, names, fuel).value;
      r > 0 && |ls| == |Starts(names)| &&
      (forall i :: 0 <= i < |ls| ==> FirstArrival(net, steps, AnyZ, Starts(names)[i], ls[i]) && Divides(ls[i], r)) &&
      (forall m :: m > 0 && (forall i :: 0 <= i < |ls| ==> Divides(ls[i], m)) ==> Divides(r, m))
  {
    var starts := Starts(names);
    forall i | 0 <= i < |starts| ensures EndsIn(starts[i], 'A') {
      assert starts[i] in starts;
    }
    CycleLengthsSpec(net, steps, starts, fuel);
    LcmOfIsLeast(CycleLengths(net, steps, starts, fuel).value);
  }

  /** Part two's `traverse_map`, with at most `fuel` turns of each walk. */
  method TraverseAll(net: Network, steps: string, names: seq<string>, fuel: nat) returns (r: Option<nat>)
    ensures r == AllArrive(net, steps, names, fuel)
  {
    var starts := Starts(names);
    var lengths: seq<nat> := [];
    var i := 0;
    while i < |starts|
      invariant i <= |starts|
      invariant CycleLengths(net, steps, starts[..i], fuel) == Some(lengths)
    {
      assert starts[..i + 1][..i] == starts[..i];
      var n := Walk(net, steps, AnyZ, starts[i], fuel);
      if n.None? {
        CyclesFail(net, steps, starts, i + 1, fuel);
        return None;
      }
      lengths := lengths + [n.value];
      i := i + 1;
    }
    assert starts[..i] == starts;
    r := Some(LcmOf(lengths));
  }

  /** Once one walk fails, the whole list of counts does. */
  lemma {:induction false} CyclesFail(net: Network, steps: string, starts: seq<string>, i: nat, fuel: nat)
    requires i <= |starts| && CycleLengths(net, steps, starts[..i], fuel).None?
    ensures CycleLengths(net, steps, starts, fuel).None?
    decreases |starts| - i
  {
    if i < |starts| {
      assert starts[..i + 1][..i] == starts[..i];
      CyclesFail(net, steps, starts, i + 1, fuel);
    } else {
      assert starts[..i] == starts;
    }
  }

  /** The first sample of part one: `RL` from `AAA` through `CCC` to `ZZZ`. */
  const SampleOne: Network := map[
    "AAA" := Fork("BBB", "CCC"), "BBB" := Fork("DDD", "EEE"), "CCC" := Fork("ZZZ", "GGG"),
    "DDD" := Fork("DDD", "DDD"), "EEE" := Fork("EEE", "EEE"), "GGG" := Fork("GGG", "GGG"),
    "ZZZ" := Fork("ZZZ", "ZZZ")]

  lemma SampleOneTakesTwo()
    ensures Traverse(SampleOne, "RL", Zzz, "AAA", 0, 2) == Some(2)
  {
    assert Follow(SampleOne, "AAA", 'R') == Some("CCC");
    assert Follow(SampleOne, "CCC", 'L') == Some("ZZZ");
  }
}
