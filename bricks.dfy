/** Day 22: sand bricks falling into a stack (D22/d22p1.py) and the chain
    reactions set off by disintegrating one of them (D22/d22p2.py). A
    brick is a box between two corner cubes; bricks are numbered by their
    line in the snapshot, as the program's dictionary keys are. */
module Bricks {

  import opened Wrappers
  import opened Arith
  import opened Seqs

  datatype Brick = Brick(x1: int, y1: int, z1: int, x2: int, y2: int, z2: int)

  /** `min(z1, z2)` and `max(z1, z2)`. */
  function Bottom(b: Brick): int { Min(b.z1, b.z2) }
  function Top(b: Brick): int { Max(b.z1, b.z2) }

  /** `check_xy_collision`: the two bricks' x ranges overlap and so do
      their y ranges. */
  predicate Collide(a: Brick, b: Brick)
  {
    Max(a.x1, b.x1) <= Min(a.x2, b.x2) && Max(a.y1, b.y1) <= Min(a.y2, b.y2)
  }

  predicate Within(v: int, lo: int, hi: int) { lo <= v <= hi }

  /** Two closed intervals overlap exactly when the larger start is at
      most the smaller end. */
  lemma OverlapIff(lo1: int, hi1: int, lo2: int, hi2: int)
    ensures Max(lo1, lo2) <= Min(hi1, hi2) <==> exists v :: Within(v, lo1, hi1) && Within(v, lo2, hi2)
  {
    if Max(lo1, lo2) <= Min(hi1, hi2) {
      assert Within(Max(lo1, lo2), lo1, hi1) && Within(Max(lo1, lo2), lo2, hi2);
    }
  }

  /** The collision test is symmetric and holds exactly when some column
      `(x, y)` lies under both bricks. */
  lemma CollideIff(a: Brick, b: Brick)
    ensures Collide(a, b) <==> Collide(b, a)
    ensures Collide(a, b) <==>
      (exists x :: Within(x, a.x1, a.x2) && Within(x, b.x1, b.x2))
      && (exists y :: Within(y, a.y1, a.y2) && Within(y, b.y1, b.y2))
  {
    OverlapIff(a.x1, a.x2, b.x1, b.x2);
    OverlapIff(a.y1, a.y2, b.y1, b.y2);
  }

  // Sorting, as Python's stable `sorted` does it.

  /** The list is in ascending order of `key`. */
  predicate Sorted(s: seq<nat>, key: nat -> int)
  {
    forall i, j :: 0 <= i < j < |s| ==> key(s[i]) <= key(s[j])
  }

  /** Put `x` after every element whose key is at most its own. */
  function Insert(x: nat, s: seq<nat>, key: nat -> int): (r: seq<nat>)
    ensures multiset(r) == multiset(s) + multiset{x}
  {
    if s == [] || key(s[|s| - 1]) <= key(x) then s + [x]
    else
      assert s == s[..|s| - 1] + [s[|s| - 1]];
      Insert(x, s[..|s| - 1], key) + [s[|s| - 1]]
  }

  lemma {:induction false} InsertSorted(x: nat, s: seq<nat>, key: nat -> int)
    requires Sorted(s, key)
    ensures Sorted(Insert(x, s, key), key)
  {
    if !(s == [] || key(s[|s| - 1]) <= key(x)) {
      var init, last := s[..|s| - 1], s[|s| - 1];
      assert Sorted(init, key);
      InsertSorted(x, init, key);
      var r := Insert(x, init, key);
      forall i | 0 <= i < |r| ensures key(r[i]) <= key(last) {
        assert r[i] in multiset(r);
        if r[i] != x {
          assert r[i] in multiset(init);
          var k :| 0 <= k < |init| && init[k] == r[i];
          assert s[k] == r[i];
        }
      }
    }
  }

  /** `sorted(ids, key=key)`: insertion sort, stable. */
  function SortBy(ids: seq<nat>, key: nat -> int): (r: seq<nat>)
    ensures multiset(r) == multiset(ids)
  {
    if ids == [] then []
    else
      assert ids == ids[..|ids| - 1] + [ids[|ids| - 1]];
      Insert(ids[|ids| - 1], SortBy(ids[..|ids| - 1], key), key)
  }

  lemma {:induction false} SortBySorted(ids: seq<nat>, key: nat -> int)
    ensures Sorted(SortBy(ids, key), key)
  {
    if ids != [] {
      SortBySorted(ids[..|ids| - 1], key);
      InsertSorted(ids[|ids| - 1], SortBy(ids[..|ids| - 1], key), key);
    }
  }

  // Gravity.

  /** The brick numbers `0 .. n - 1`, in dictionary order. */
  function Ids(n: nat): (r: seq<nat>)
    ensures |r| == n && forall i :: 0 <= i < n ==> r[i] == i
  {
    seq(n, i requires 0 <= i => i)
  }

  function BottomOf(b: seq<Brick>): nat -> int
  {
    (k: nat) => if k < |b| then Bottom(b[k]) else 0
  }

  /** The order `sim_gravity` drops the bricks in: ascending lower end,
      ties in dictionary order. */
  function Order(b: seq<Brick>): seq<nat>
  {
    SortBy(Ids(|b|), BottomOf(b))
  }

  /** The bricks are dropped lowest first, each of them once. */
  lemma OrderSpec(b: seq<Brick>)
    ensures Sorted(Order(b), BottomOf(b))
    ensures multiset(Order(b)) == multiset(Ids(|b|))
    ensures |Order(b)| == |b| && forall k :: 0 <= k < |b| ==> Order(b)[k] < |b|
  {
    SortBySorted(Ids(|b|), BottomOf(b));
    var o := Order(b);
    assert |o| == |multiset(o)| == |multiset(Ids(|b|))| == |b|;
    forall k | 0 <= k < |b| ensures o[k] < |b| {
      assert o[k] in multiset(Ids(|b|));
    }
  }

  /** The bricks whose lower end is below `z`, in dictionary order: the
      filter of `get_bricks_below_z`. */
  function BelowIds(b: seq<Brick>, z: int, m: nat): (r: seq<nat>)
    requires m <= |b|
    ensures forall k: nat :: k in r <==> k < m && Bottom(b[k]) < z
  {
    if m == 0 then []
    else if Bottom(b[m - 1]) < z then BelowIds(b, z, m - 1) + [m - 1]
    else BelowIds(b, z, m - 1)
  }

  function NegTopOf(b: seq<Brick>): nat -> int
  {
    (k: nat) => if k < |b| then -Top(b[k]) else 0
  }

  /** `get_bricks_below_z`: the bricks whose lower end is below `z`,
      highest upper end first. */
  function BelowSorted(b: seq<Brick>, z: int): seq<nat>
  {
    SortBy(BelowIds(b, z, |b|), NegTopOf(b))
  }

  /** Every number in `ids` names a brick of a stack of `n`. */
  predicate InRange(ids: seq<nat>, n: nat)
  {
    forall i :: 0 <= i < |ids| ==> ids[i] < n
  }

  /** The first brick of `below` that collides with `br` in the plane. */
  function FirstColliding(br: Brick, b: seq<Brick>, below: seq<nat>): (r: Option<nat>)
    requires InRange(below, |b|)
    ensures r.Some? ==> r.value in below && Collide(br, b[r.value])
    ensures r.None? ==> forall k :: k in below ==> !Collide(br, b[k])
  {
    if below == [] then None
    else if Collide(br, b[below[0]]) then Some(below[0])
    else FirstColliding(br, b, below[1..])
  }

  /** The first colliding brick of a list in descending order of upper
      end has the highest upper end among the colliding bricks. */
  lemma {:induction false} FirstCollidingIsHighest(br: Brick, b: seq<Brick>, below: seq<nat>)
    requires InRange(below, |b|)
    requires Sorted(below, NegTopOf(b))
    requires FirstColliding(br, b, below).Some?
    ensures forall k :: k in below && Collide(br, b[k]) ==> Top(b[k]) <= Top(b[FirstColliding(br, b, below).value])
  {
    if !Collide(br, b[below[0]]) {
      assert Sorted(below[1..], NegTopOf(b));
      FirstCollidingIsHighest(br, b, below[1..]);
    } else {
      forall k | k in below && Collide(br, b[k]) ensures Top(b[k]) <= Top(b[below[0]]) {
        var j :| 0 <= j < |below| && below[j] == k;
        if j > 0 {
          assert NegTopOf(b)(below[0]) <= NegTopOf(b)(below[j]);
        }
      }
    }
  }

  /** The sorted list holds exactly the bricks below `z`. */
  lemma BelowSortedHolds(b: seq<Brick>, z: int)
    ensures InRange(BelowSorted(b, z), |b|)
    ensures forall k: nat :: k in BelowSorted(b, z) <==> k < |b| && Bottom(b[k]) < z
  {
    var ids, below := BelowIds(b, z, |b|), BelowSorted(b, z);
    forall k: nat ensures k in below <==> k in ids {
      assert k in below <==> k in multiset(below);
      assert k in ids <==> k in multiset(ids);
    }
    forall j | 0 <= j < |below| ensures below[j] < |b| {
      assert below[j] in ids;
    }
  }

  /** The lower end brick `i` falls to: one above the first colliding
      brick below it, or the ground level 1. */
  function Landing(b: seq<Brick>, i: nat): int
    requires i < |b|
  {
    var below := BelowSorted(b, Bottom(b[i]));
    BelowSortedHolds(b, Bottom(b[i]));
    match FirstColliding(b[i], b, below)
    case Some(j) => Top(b[j]) + 1
    case None => 1
  }

  /** A brick lands one above the highest upper end among the bricks
      below it that it collides with, or at level 1 when there is none. */
  lemma LandingSpec(b: seq<Brick>, i: nat)
    requires i < |b|
    ensures forall j :: 0 <= j < |b| && Bottom(b[j]) < Bottom(b[i]) && Collide(b[i], b[j]) ==> Top(b[j]) + 1 <= Landing(b, i)
    ensures (exists j :: 0 <= j < |b| && Bottom(b[j]) < Bottom(b[i]) && Collide(b[i], b[j]) && Top(b[j]) + 1 == Landing(b, i))
      || (Landing(b, i) == 1 && forall j :: 0 <= j < |b| && Bottom(b[j]) < Bottom(b[i]) ==> !Collide(b[i], b[j]))
  {
    var z := Bottom(b[i]);
    var ids := BelowIds(b, z, |b|);
    var below := BelowSorted(b, z);
    BelowSortedHolds(b, z);
    SortBySorted(ids, NegTopOf(b));
    if FirstColliding(b[i], b, below).Some? {
      FirstCollidingIsHighest(b[i], b, below);
    }
  }

  /** `brick_data['z1'] = z; brick_data['z2'] = z + z_size - 1`. */
  function Lowered(br: Brick, z: int): (r: Brick)
    ensures r.x1 == br.x1 && r.y1 == br.y1 && r.x2 == br.x2 && r.y2 == br.y2
    ensures r.z1 == z && Abs(r.z2 - r.z1) == Abs(br.z2 - br.z1)
  {
    var size := Abs(br.z1 - br.z2) + 1;
    br.(z1 := z, z2 := z + size - 1)
  }

  /** One step of `sim_gravity`: a brick on the ground stays, any other
      falls to its landing level; no other brick moves. */
  function DropOne(b: seq<Brick>, i: nat): (r: seq<Brick>)
    requires i < |b|
    ensures |r| == |b| && forall k :: 0 <= k < |b| && k != i ==> r[k] == b[k]
    ensures Bottom(b[i]) == 1 ==> r == b
  {
    if Bottom(b[i]) == 1 then b else b[i := Lowered(b[i], Landing(b, i))]
  }

  /** Drop the bricks `ids` in turn. */
  function DropAll(b: seq<Brick>, ids: seq<nat>): (r: seq<Brick>)
    requires InRange(ids, |b|)
    ensures |r| == |b|
    decreases |ids|
  {
    if ids == [] then b else DropAll(DropOne(b, ids[0]), ids[1..])
  }

  /** Dropping `ids[k..]` is dropping `ids[k]`, then the rest. */
  lemma DropAllStep(b: seq<Brick>, ids: seq<nat>, k: nat)
    requires InRange(ids, |b|) && k < |ids|
    ensures DropAll(b, ids[k..]) == DropAll(DropOne(b, ids[k]), ids[k + 1..])
  {
    assert ids[k..][0] == ids[k] && ids[k..][1..] == ids[k + 1..];
  }

  lemma OrderInRange(b: seq<Brick>)
    ensures |Order(b)| == |b| && InRange(Order(b), |b|)
  {
    OrderSpec(b);
  }

  /** `DropOne` as the program writes the update. */
  lemma DropOneLands(b: seq<Brick>, id: nat, dropTo: int, size: int)
    requires id < |b| && Bottom(b[id]) != 1
    requires dropTo == Landing(b, id) && size == Abs(b[id].z1 - b[id].z2) + 1
    ensures DropOne(b, id) == b[id := b[id].(z1 := dropTo, z2 := dropTo + size - 1)]
  {
  }

  /** The stack after `sim_gravity`. */
  function Settle(b: seq<Brick>): (r: seq<Brick>)
    ensures |r| == |b|
  {
    OrderSpec(b);
    DropAll(b, Order(b))
  }

  /** Same footprint, same height: bricks only move along z. */
  predicate SameShape(a: Brick, b: Brick)
  {
    a.x1 == b.x1 && a.y1 == b.y1 && a.x2 == b.x2 && a.y2 == b.y2 && Abs(a.z2 - a.z1) == Abs(b.z2 - b.z1)
  }

  lemma {:induction false} DropAllKeepsShape(b: seq<Brick>, ids: seq<nat>)
    requires InRange(ids, |b|)
    ensures forall k :: 0 <= k < |b| ==> SameShape(DropAll(b, ids)[k], b[k])
    decreases |ids|
  {
    if ids != [] {
      var d := DropOne(b, ids[0]);
      DropAllKeepsShape(d, ids[1..]);
    }
  }

  /** Settling keeps every brick's x and y ranges and its height; only
      `z1` and `z2` change. */
  lemma SettleKeepsShape(b: seq<Brick>)
    ensures forall k :: 0 <= k < |b| ==> SameShape(Settle(b)[k], b[k])
  {
    OrderSpec(b);
    DropAllKeepsShape(b, Order(b));
  }

  // Support structure.

  /** Brick `lower` holds up brick `upper`: its upper end is one level
      under the other's lower end and the two collide in the plane. */
  predicate Supports(b: seq<Brick>, lower: nat, upper: nat)
    requires lower < |b| && upper < |b|
  {
    Top(b[lower]) == Bottom(b[upper]) - 1 && Collide(b[upper], b[lower])
  }

  /** The supporters of brick `i` among bricks `0 .. m - 1`, in order. */
  function SupportersUpTo(b: seq<Brick>, i: nat, m: nat): (r: seq<nat>)
    requires i < |b| && m <= |b|
  {
    if m == 0 then []
    else SupportersUpTo(b, i, m - 1) + (if Supports(b, m - 1, i) then [m - 1] else [])
  }

  /** The bricks among `0 .. m - 1` that brick `j` supports, in order. */
  function SupportingUpTo(b: seq<Brick>, j: nat, m: nat): (r: seq<nat>)
    requires j < |b| && m <= |b|
  {
    if m == 0 then []
    else SupportingUpTo(b, j, m - 1) + (if Supports(b, j, m - 1) then [m - 1] else [])
  }

  lemma {:induction false} SupportersUpToSpec(b: seq<Brick>, i: nat, m: nat)
    requires i < |b| && m <= |b|
    ensures forall k: nat :: k in SupportersUpTo(b, i, m) <==> k < m && Supports(b, k, i)
    ensures Distinct(SupportersUpTo(b, i, m)) && InRange(SupportersUpTo(b, i, m), m)
  {
    if m > 0 {
      SupportersUpToSpec(b, i, m - 1);
    }
  }

  lemma {:induction false} SupportingUpToSpec(b: seq<Brick>, j: nat, m: nat)
    requires j < |b| && m <= |b|
    ensures forall k: nat :: k in SupportingUpTo(b, j, m) <==> k < m && Supports(b, j, k)
    ensures InRange(SupportingUpTo(b, j, m), m)
  {
    if m > 0 {
      SupportingUpToSpec(b, j, m - 1);
    }
  }

  /** The two-way links of part two: lists for `n` bricks, naming only
      those bricks, no brick its own supporter, each supporter listed
      once, and `j` among the supporters of `i` exactly when `i` is among
      the bricks `j` supports. */
  predicate Linked(sup: seq<seq<nat>>, sting: seq<seq<nat>>)
  {
    && |sting| == |sup|
    && (forall i :: 0 <= i < |sup| ==> InRange(sup[i], |sup|) && InRange(sting[i], |sup|))
    && (forall i :: 0 <= i < |sup| ==> Distinct(sup[i]) && i !in sup[i])
    && (forall i, j :: 0 <= i < |sup| && 0 <= j < |sup| ==> (j in sup[i] <==> i in sting[j]))
  }

  /** The support lists that `store_support_structure` builds. */
  function SupportersOf(b: seq<Brick>): seq<seq<nat>>
  {
    seq(|b|, i requires 0 <= i < |b| => SupportersUpTo(b, i, |b|))
  }

  function SupportingOf(b: seq<Brick>): seq<seq<nat>>
  {
    seq(|b|, j requires 0 <= j < |b| => SupportingUpTo(b, j, |b|))
  }

  /** Built from empty lists, the structure is two-way linked: `a` is
      among the supporters of `c` exactly when `c` is among the bricks
      `a` supports, exactly when `a` holds `c` up. */
  lemma SupportStructureLinked(b: seq<Brick>)
    ensures Linked(SupportersOf(b), SupportingOf(b))
    ensures forall i, j :: 0 <= i < |b| && 0 <= j < |b| ==>
      (j in SupportersOf(b)[i] <==> Supports(b, j, i)) && (i in SupportingOf(b)[j] <==> Supports(b, j, i))
  {
    var sup, sting := SupportersOf(b), SupportingOf(b);
    forall i | 0 <= i < |b| ensures InRange(sup[i], |b|) && InRange(sting[i], |b|) && Distinct(sup[i]) && i !in sup[i] {
      SupportersUpToSpec(b, i, |b|);
      SupportingUpToSpec(b, i, |b|);
    }
    forall i, j | 0 <= i < |b| && 0 <= j < |b|
      ensures (j in sup[i] <==> Supports(b, j, i)) && (i in sting[j] <==> Supports(b, j, i))
    {
      SupportersUpToSpec(b, i, |b|);
      SupportingUpToSpec(b, j, |b|);
    }
  }

  // Part one: bricks that are safe to disintegrate.

  /** `supporters.count(brick) == 1 and len(supporters) == 1`. */
  predicate SoleSupporter(supporters: seq<nat>, brick: nat)
  {
    Count(supporters, brick) == 1 && |supporters| == 1
  }

  lemma SoleSupporterIff(supporters: seq<nat>, brick: nat)
    ensures SoleSupporter(supporters, brick) <==> supporters == [brick]
  {
    if |supporters| == 1 {
      assert supporters[1..] == [];
    }
  }

  /** No brick has `brick` as its only supporter. */
  predicate Safe(sup: seq<seq<nat>>, brick: nat)
  {
    forall o :: 0 <= o < |sup| ==> !SoleSupporter(sup[o], brick)
  }

  /** How many of bricks `0 .. m - 1` are safe. */
  function SafeCount(sup: seq<seq<nat>>, m: nat): (r: nat)
    ensures r <= m
  {
    if m == 0 then 0 else SafeCount(sup, m - 1) + (if Safe(sup, m - 1) then 1 else 0)
  }

  // Part two: chain reactions.

  /** No brick outside `s` would fall once every brick of `s` is gone:
      each brick held up by one in `s` is itself in `s` or still has a
      supporter outside `s`. */
  ghost predicate Closed(sup: seq<seq<nat>>, sting: seq<seq<nat>>, s: set<nat>)
    requires |sting| == |sup|
  {
    forall y, o :: y in s && 0 <= y < |sup| && o in sting[y] && o < |sup| ==> o in s || !(Elems(sup[o]) <= s)
  }

  /** `s` is what falls when `start` is disintegrated: the least closed
      set holding `start`. */
  ghost predicate FallSet(sup: seq<seq<nat>>, sting: seq<seq<nat>>, s: set<nat>, start: nat)
    requires |sting| == |sup|
  {
    && start in s && Closed(sup, sting, s)
    && forall t: set<nat> :: start in t && Closed(sup, sting, t) ==> s <= t
  }

  /** There is only one such set. */
  lemma FallSetUnique(sup: seq<seq<nat>>, sting: seq<seq<nat>>, s1: set<nat>, s2: set<nat>, start: nat)
    requires |sting| == |sup|
    requires FallSet(sup, sting, s1, start) && FallSet(sup, sting, s2, start)
    ensures s1 == s2
  {
  }

  /** A brick is safe in part one exactly when disintegrating it brings
      down nothing else in part two. */
  lemma SafeIffNothingFalls(sup: seq<seq<nat>>, sting: seq<seq<nat>>, brick: nat)
    requires Linked(sup, sting) && brick < |sup|
    ensures Safe(sup, brick) <==> FallSet(sup, sting, {brick}, brick)
  {
    if Safe(sup, brick) {
      forall y, o | y in {brick} && 0 <= y < |sup| && o in sting[y] && o < |sup|
        ensures o in {brick} || !(Elems(sup[o]) <= {brick})
      {
        if o != brick && Elems(sup[o]) <= {brick} {
          assert brick in sup[o];
          SoleSupporterIff(sup[o], brick);
          OnlyElement(sup[o], brick);
          assert false;
        }
      }
    } else {
      var o :| 0 <= o < |sup| && SoleSupporter(sup[o], brick);
      SoleSupporterIff(sup[o], brick);
      assert brick in sup[o] && o != brick && Elems(sup[o]) <= {brick};
      assert o in sting[brick];
    }
  }

  /** A list without repeats holding `x` and nothing else is `[x]`. */
  lemma OnlyElement(xs: seq<nat>, x: nat)
    requires Distinct(xs) && x in xs && Elems(xs) <= {x}
    ensures xs == [x]
  {
    forall i | 0 <= i < |xs| ensures xs[i] == x {
      assert xs[i] in Elems(xs);
    }
    var zeros: seq<nat> := seq(|xs|, i requires 0 <= i < |xs| => xs[i] - x);
    DistinctBelow(zeros, 1);
  }

  /** A list without repeats has as many distinct elements as entries. */
  lemma {:induction false} DistinctSize(xs: seq<nat>)
    requires Distinct(xs)
    ensures |Elems(xs)| == |xs|
  {
    if xs != [] {
      var last := xs[|xs| - 1];
      var init := xs[..|xs| - 1];
      assert Distinct(init);
      DistinctSize(init);
      assert xs == init + [last];
      assert Elems(xs) == Elems(init) + {last};
      assert last !in Elems(init);
    }
  }

  /** Every brick after the first in `all` was queued from an earlier
      zapped brick `all[parent[k]]` that supports it, once all its
      supporters were among the first `parent[k] + 1` zapped. */
  ghost predicate Traced(sup: seq<seq<nat>>, sting: seq<seq<nat>>, all: seq<nat>, parent: seq<nat>, done: nat)
  {
    && |sting| == |sup| && |parent| == |all| && InRange(all, |sup|)
    && forall k :: 0 < k < |all| ==>
      && parent[k] < k && parent[k] < done
      && all[k] in sting[all[parent[k]]]
      && Elems(sup[all[k]]) <= Elems(all[..parent[k] + 1])
  }

  /** Each brick resting on a zapped brick is queued or zapped already,
      still has a supporter that is not zapped, or is among `rest`, the
      bricks left to examine. */
  ghost predicate Pending(sup: seq<seq<nat>>, sting: seq<seq<nat>>, zapped: seq<nat>, all: seq<nat>, rest: seq<nat>)
  {
    && |sting| == |sup| && InRange(zapped, |sup|)
    && forall i, o :: 0 <= i < |zapped| && o in sting[zapped[i]] && o < |sup| ==>
      o in all || !(Elems(sup[o]) <= Elems(zapped)) || o in rest
  }

  /** The state of the breadth first search: `zapped + queue` has no
      repeats, is traced back to its first brick, leaves only `rest`
      pending, and `fallen` counts all of it but the first. */
  ghost predicate Searching(sup: seq<seq<nat>>, sting: seq<seq<nat>>, zapped: seq<nat>, queue: seq<nat>, parent: seq<nat>, rest: seq<nat>, fallen: nat)
  {
    && Distinct(zapped + queue)
    && Traced(sup, sting, zapped + queue, parent, |zapped|)
    && Pending(sup, sting, zapped, zapped + queue, rest)
    && fallen == |zapped + queue| - 1
  }

  /** `queue.pop(0)` then `bricks_zapped.append`: the popped brick's
      supported bricks become the ones to examine. */
  lemma SearchZap(sup: seq<seq<nat>>, sting: seq<seq<nat>>, zapped: seq<nat>, queue: seq<nat>, parent: seq<nat>, fallen: nat)
    requires Linked(sup, sting) && queue != []
    requires Searching(sup, sting, zapped, queue, parent, [], fallen)
    ensures queue[0] < |sup|
    ensures Searching(sup, sting, zapped + [queue[0]], queue[1..], parent, sting[queue[0]], fallen)
  {
    var all := zapped + queue;
    SearchingParts(sup, sting, zapped, queue, parent, [], fallen, all);
    var z, q := zapped + [queue[0]], queue[1..];
    assert queue[0] == all[|zapped|];
    ShiftFront(zapped, queue);
    PendingZap(sup, sting, zapped, all, queue[0]);
    TracedMore(sup, sting, all, parent, |zapped|);
    SearchingOf(sup, sting, z, q, parent, sting[queue[0]], fallen, all);
  }

  /** Moving the front of the queue to the zapped bricks keeps the two
      together as they were. */
  lemma ShiftFront(zapped: seq<nat>, queue: seq<nat>)
    requires queue != []
    ensures (zapped + [queue[0]]) + queue[1..] == zapped + queue
  {
    assert queue == [queue[0]] + queue[1..];
  }

  /** The search state, in terms of `all`, the zapped bricks and the
      queue together. */
  lemma SearchingParts(sup: seq<seq<nat>>, sting: seq<seq<nat>>, zapped: seq<nat>, queue: seq<nat>, parent: seq<nat>, rest: seq<nat>, fallen: nat, all: seq<nat>)
    requires all == zapped + queue
    requires Searching(sup, sting, zapped, queue, parent, rest, fallen)
    ensures Distinct(all) && Traced(sup, sting, all, parent, |zapped|)
    ensures Pending(sup, sting, zapped, all, rest) && fallen == |all| - 1
  {
  }

  lemma SearchingOf(sup: seq<seq<nat>>, sting: seq<seq<nat>>, zapped: seq<nat>, queue: seq<nat>, parent: seq<nat>, rest: seq<nat>, fallen: nat, all: seq<nat>)
    requires all == zapped + queue
    requires Distinct(all) && Traced(sup, sting, all, parent, |zapped|)
    requires Pending(sup, sting, zapped, all, rest) && fallen == |all| - 1
    ensures Searching(sup, sting, zapped, queue, parent, rest, fallen)
  {
  }

  /** A trace stays one when one more brick counts as zapped. */
  lemma TracedMore(sup: seq<seq<nat>>, sting: seq<seq<nat>>, all: seq<nat>, parent: seq<nat>, done: nat)
    requires Traced(sup, sting, all, parent, done)
    ensures Traced(sup, sting, all, parent, done + 1)
  {
  }

  /** With the queue empty, the zapped bricks are the fall set of the
      first, and `fallen` counts the others. */
  lemma SearchDone(sup: seq<seq<nat>>, sting: seq<seq<nat>>, zapped: seq<nat>, queue: seq<nat>, parent: seq<nat>, fallen: nat, start: nat)
    requires queue == [] && |zapped + queue| >= 1 && (zapped + queue)[0] == start
    requires Searching(sup, sting, zapped, queue, parent, [], fallen)
    ensures FallSet(sup, sting, Elems(zapped), start) && fallen == |Elems(zapped)| - 1
  {
    assert zapped + queue == zapped;
    PendingClosed(sup, sting, zapped);
    DistinctSize(zapped);
    forall t: set<nat> | start in t && Closed(sup, sting, t) ensures Elems(zapped) <= t {
      TracedLeast(sup, sting, zapped, parent, |zapped|, t, |zapped|);
      assert zapped[..|zapped|] == zapped;
    }
  }

  /** Queueing `o` from the last zapped brick keeps the trace. */
  lemma TracedGrow(sup: seq<seq<nat>>, sting: seq<seq<nat>>, all: seq<nat>, parent: seq<nat>, done: nat, o: nat)
    requires Traced(sup, sting, all, parent, done) && 1 <= done <= |all|
    requires o < |sup| && o in sting[all[done - 1]] && Elems(sup[o]) <= Elems(all[..done])
    ensures Traced(sup, sting, all + [o], parent + [done - 1], done)
  {
    var all', parent' := all + [o], parent + [done - 1];
    forall k | 0 < k < |all'|
      ensures && parent'[k] < k && parent'[k] < done
              && all'[k] in sting[all'[parent'[k]]]
              && Elems(sup[all'[k]]) <= Elems(all'[..parent'[k] + 1])
    {
      if k < |all| {
        assert all'[k] == all[k] && parent'[k] == parent[k];
      } else {
        assert all'[k] == o && parent'[k] == done - 1;
      }
      assert all'[parent'[k]] == all[parent'[k]];
      assert all'[..parent'[k] + 1] == all[..parent'[k] + 1];
    }
  }

  /** Zapping `x`: its own supported bricks become the ones to examine. */
  lemma PendingZap(sup: seq<seq<nat>>, sting: seq<seq<nat>>, zapped: seq<nat>, all: seq<nat>, x: nat)
    requires Linked(sup, sting) && x < |sup|
    requires Pending(sup, sting, zapped, all, [])
    ensures Pending(sup, sting, zapped + [x], all, sting[x])
  {
    var z := zapped + [x];
    forall i, o | 0 <= i < |z| && o in sting[z[i]] && o < |sup|
      ensures o in all || !(Elems(sup[o]) <= Elems(z)) || o in sting[x]
    {
      if i < |zapped| {
        assert z[i] == zapped[i];
        if o !in all && Elems(sup[o]) <= Elems(z) {
          assert !(Elems(sup[o]) <= Elems(zapped));
          var w :| w in Elems(sup[o]) && w !in Elems(zapped);
          assert w == x;
        }
      }
    }
  }

  /** Examining `o`, the first of the bricks left: it is queued or
      zapped by now, or a supporter of it is not zapped yet. */
  lemma PendingStep(sup: seq<seq<nat>>, sting: seq<seq<nat>>, zapped: seq<nat>, all: seq<nat>, all': seq<nat>, o: nat, rest: seq<nat>)
    requires Pending(sup, sting, zapped, all, [o] + rest)
    requires Elems(all) <= Elems(all')
    requires o >= |sup| || o in all' || !(Elems(sup[o]) <= Elems(zapped))
    ensures Pending(sup, sting, zapped, all', rest)
  {
    forall i, p | 0 <= i < |zapped| && p in sting[zapped[i]] && p < |sup|
      ensures p in all' || !(Elems(sup[p]) <= Elems(zapped)) || p in rest
    {
      if p in all {
        assert p in Elems(all);
      }
    }
  }

  lemma SplitAt(xs: seq<nat>, q: nat)
    requires q < |xs|
    ensures xs[q..] == [xs[q]] + xs[q + 1..]
  {
  }

  /** Queueing `o`, which rests on the last zapped brick and whose
      supporters are all zapped. */
  lemma SearchQueue(sup: seq<seq<nat>>, sting: seq<seq<nat>>, zapped: seq<nat>, queue: seq<nat>, parent: seq<nat>, o: nat, rest: seq<nat>, fallen: nat)
    requires |zapped| >= 1 && zapped[|zapped| - 1] < |sting| && o in sting[zapped[|zapped| - 1]] && o < |sup|
    requires Searching(sup, sting, zapped, queue, parent, [o] + rest, fallen)
    requires o !in zapped && o !in queue && Elems(sup[o]) <= Elems(zapped)
    ensures Searching(sup, sting, zapped, queue + [o], parent + [|zapped| - 1], rest, fallen + 1)
  {
    var all := zapped + queue;
    assert zapped == all[..|zapped|];
    assert all[|zapped| - 1] == zapped[|zapped| - 1];
    TracedGrow(sup, sting, all, parent, |zapped|, o);
    assert zapped + (queue + [o]) == all + [o];
    DistinctSnoc(all, o);
    PendingStep(sup, sting, zapped, all, all + [o], o, rest);
  }

  /** Passing over `o`, which is zapped or queued already or still has a
      supporter that is not zapped. */
  lemma SearchSkip(sup: seq<seq<nat>>, sting: seq<seq<nat>>, zapped: seq<nat>, queue: seq<nat>, parent: seq<nat>, o: nat, rest: seq<nat>, fallen: nat)
    requires Searching(sup, sting, zapped, queue, parent, [o] + rest, fallen)
    requires o >= |sup| || o in zapped || o in queue || !(Elems(sup[o]) <= Elems(zapped))
    ensures Searching(sup, sting, zapped, queue, parent, rest, fallen)
  {
    PendingStep(sup, sting, zapped, zapped + queue, zapped + queue, o, rest);
  }

  lemma DistinctSnoc(xs: seq<nat>, x: nat)
    requires Distinct(xs) && x !in xs
    ensures Distinct(xs + [x])
  {
    var ys := xs + [x];
    forall i, j | 0 <= i < j < |ys| ensures ys[i] != ys[j] {
      assert ys[i] == xs[i];
    }
  }

  /** With nothing queued, the zapped bricks are closed. */
  lemma PendingClosed(sup: seq<seq<nat>>, sting: seq<seq<nat>>, zapped: seq<nat>)
    requires Pending(sup, sting, zapped, zapped, [])
    ensures Closed(sup, sting, Elems(zapped))
  {
    forall y, o | y in Elems(zapped) && 0 <= y < |sup| && o in sting[y] && o < |sup|
      ensures o in Elems(zapped) || !(Elems(sup[o]) <= Elems(zapped))
    {
      var i :| 0 <= i < |zapped| && zapped[i] == y;
    }
  }

  /** Every traced brick falls in any closed set holding the start. */
  lemma {:induction false} TracedLeast(sup: seq<seq<nat>>, sting: seq<seq<nat>>, all: seq<nat>, parent: seq<nat>, done: nat, t: set<nat>, m: nat)
    requires Traced(sup, sting, all, parent, done) && |all| >= 1
    requires all[0] in t && Closed(sup, sting, t) && m <= |all|
    ensures Elems(all[..m]) <= t
  {
    if m > 1 {
      TracedLeast(sup, sting, all, parent, done, t, m - 1);
      var k := m - 1;
      var p := parent[k];
      TracedLeast(sup, sting, all, parent, done, t, p + 1);
      assert all[p] in Elems(all[..p + 1]);
      assert all[..m] == all[..m - 1] + [all[k]];
    } else if m == 1 {
      assert all[..1] == [all[0]];
    }
  }

  /** The total of what each start brick brings down, not counting
      itself. */
  function FallenTotal(fells: seq<set<nat>>): int
  {
    if fells == [] then 0 else FallenTotal(fells[..|fells| - 1]) + |fells[|fells| - 1]| - 1
  }

  /** The bricks dictionary: each brick's corners and its support lists,
      updated in place by the program's steps. */
  class Stack {
    var bricks: seq<Brick>
    var supporters: seq<seq<nat>>
    var supporting: seq<seq<nat>>

    /** `parse_input`: the snapshot, every support list empty. */
    constructor (snapshot: seq<Brick>)
      ensures bricks == snapshot
      ensures |supporters| == |snapshot| && |supporting| == |snapshot|
      ensures forall i :: 0 <= i < |snapshot| ==> supporters[i] == [] && supporting[i] == []
    {
      bricks := snapshot;
      supporters := seq(|snapshot|, _ => []);
      supporting := seq(|snapshot|, _ => []);
    }

    /** `sim_gravity`: drop the bricks lowest first, each onto the highest
        brick below it that it collides with. */
    method SimGravity()
      modifies this
      ensures bricks == Settle(old(bricks))
      ensures supporters == old(supporters) && supporting == old(supporting)
    {
      var order := Order(bricks);
      OrderInRange(bricks);
      ghost var settled := Settle(bricks);
      for k := 0 to |order|
        invariant |bricks| == |order| && InRange(order, |bricks|)
        invariant DropAll(bricks, order[k..]) == settled
        invariant supporters == old(supporters) && supporting == old(supporting)
      {
        DropAllStep(bricks, order, k);
        DropBrick(order[k]);
      }
    }

    /** One pass of `sim_gravity`'s loop: brick `id` falls to where it
        lands, unless it rests on the ground already. */
    method DropBrick(id: nat)
      requires id < |bricks|
      modifies this
      ensures bricks == DropOne(old(bricks), id)
      ensures supporters == old(supporters) && supporting == old(supporting)
    {
      if Bottom(bricks[id]) == 1 {
        return;
      }
      var dropTo := LandingLevel(id);
      var size := Abs(bricks[id].z1 - bricks[id].z2) + 1;
      DropOneLands(bricks, id, dropTo, size);
      bricks := bricks[id := bricks[id].(z1 := dropTo, z2 := dropTo + size - 1)];
    }

    /** The scan of `sim_gravity` over the bricks below brick `id`,
        highest upper end first, for the first it collides with. */
    method LandingLevel(id: nat) returns (dropTo: int)
      requires id < |bricks|
      ensures dropTo == Landing(bricks, id)
    {
      var below := BelowSorted(bricks, Bottom(bricks[id]));
      BelowSortedHolds(bricks, Bottom(bricks[id]));
      dropTo := 1;
      var q := 0;
      while q < |below|
        invariant q <= |below|
        invariant FirstColliding(bricks[id], bricks, below) == FirstColliding(bricks[id], bricks, below[q..])
        decreases |below| - q
      {
        if Collide(bricks[id], bricks[below[q]]) {
          dropTo := Top(bricks[below[q]]) + 1;
          return;
        }
        assert below[q..][1..] == below[q + 1..];
        q := q + 1;
      }
    }

    /** `store_support_structure` of part two: each pair of a brick and a
        brick it rests on is appended to both lists (part one keeps only
        the supporters). */
    method StoreSupportStructure()
      modifies this
      requires |supporters| == |bricks| && |supporting| == |bricks|
      ensures bricks == old(bricks) && |supporters| == |bricks| && |supporting| == |bricks|
      ensures forall i :: 0 <= i < |bricks| ==> supporters[i] == old(supporters[i]) + SupportersUpTo(bricks, i, |bricks|)
      ensures forall j :: 0 <= j < |bricks| ==> supporting[j] == old(supporting[j]) + SupportingUpTo(bricks, j, |bricks|)
    {
      var n := |bricks|;
      for i := 0 to n
        invariant bricks == old(bricks) && |supporters| == n && |supporting| == n
        invariant forall k :: 0 <= k < n ==> supporters[k] == old(supporters[k]) + (if k < i then SupportersUpTo(bricks, k, n) else [])
        invariant forall j :: 0 <= j < n ==> supporting[j] == old(supporting[j]) + SupportingUpTo(bricks, j, i)
      {
        LinkBelow(i);
      }
    }

    /** One brick's pass of `store_support_structure`: each brick `j`
        whose upper end is just below brick `i` and that collides with it
        is appended to the supporters of `i`, and `i` to the bricks `j`
        supports. */
    method LinkBelow(i: nat)
      modifies this
      requires i < |bricks| && |supporters| == |bricks| && |supporting| == |bricks|
      ensures bricks == old(bricks) && |supporters| == |bricks| && |supporting| == |bricks|
      ensures supporters[i] == old(supporters[i]) + SupportersUpTo(bricks, i, |bricks|)
      ensures forall k :: 0 <= k < |bricks| && k != i ==> supporters[k] == old(supporters[k])
      ensures forall j :: 0 <= j < |bricks| ==> supporting[j] == old(supporting[j]) + (if Supports(bricks, j, i) then [i] else [])
    {
      var n := |bricks|;
      var z := Bottom(bricks[i]);
      for j := 0 to n
        invariant bricks == old(bricks) && |supporters| == n && |supporting| == n
        invariant supporters[i] == old(supporters[i]) + SupportersUpTo(bricks, i, j)
        invariant forall k :: 0 <= k < n && k != i ==> supporters[k] == old(supporters[k])
        invariant forall l :: 0 <= l < n ==> supporting[l] == old(supporting[l]) + (if l < j && Supports(bricks, l, i) then [i] else [])
      {
        if Top(bricks[j]) == z - 1 && Collide(bricks[i], bricks[j]) {
          supporters := supporters[i := supporters[i] + [j]];
          supporting := supporting[j := supporting[j] + [i]];
        }
      }
    }

    /** One round of `run_disintegration_chain`: breadth first from
        `start`, queueing each brick resting on a zapped brick once all
        its supporters are zapped. `fell` is the set of zapped bricks. */
    method Chain(start: nat) returns (fallen: nat, ghost fell: set<nat>)
      requires Linked(supporters, supporting) && start < |supporters|
      ensures FallSet(supporters, supporting, fell, start) && fallen == |fell| - 1
    {
      var n := |supporters|;
      var zapped: seq<nat> := [];
      var queue: seq<nat> := [start];
      ghost var parent: seq<nat> := [0];
      fallen := 0;
      while queue != []
        invariant |zapped + queue| >= 1 && (zapped + queue)[0] == start
        invariant Searching(supporters, supporting, zapped, queue, parent, [], fallen)
        decreases n - |zapped|
      {
        DistinctBelow(zapped + queue, n);
        SearchZap(supporters, supporting, zapped, queue, parent, fallen);
        var x := queue[0];
        queue := queue[1..];
        zapped := zapped + [x];
        queue, parent, fallen := ExamineSupported(x, zapped, queue, parent, fallen);
      }
      fell := Elems(zapped);
      SearchDone(supporters, supporting, zapped, queue, parent, fallen, start);
    }

    /** The inner loop of `run_disintegration_chain`: examine each brick
        resting on the just zapped `x`, queueing (and counting) those not
        yet zapped or queued whose supporters are all zapped. */
    method ExamineSupported(x: nat, zapped: seq<nat>, queue0: seq<nat>, ghost parent0: seq<nat>, fallen0: nat)
      returns (queue: seq<nat>, ghost parent: seq<nat>, fallen: nat)
      requires Linked(supporters, supporting) && x < |supporting|
      requires |zapped| >= 1 && zapped[|zapped| - 1] == x
      requires Searching(supporters, supporting, zapped, queue0, parent0, supporting[x], fallen0)
      ensures Searching(supporters, supporting, zapped, queue, parent, [], fallen)
    {
      queue, parent, fallen := queue0, parent0, fallen0;
      var links := supporting[x];
      for q := 0 to |links|
        invariant Searching(supporters, supporting, zapped, queue, parent, links[q..], fallen)
      {
        SplitAt(links, q);
        queue, parent, fallen := ExamineLink(x, zapped, queue, parent, fallen, links[q], links[q + 1..]);
      }
      assert links[|links|..] == [];
    }

    /** One pass of the loop over `x`'s supported bricks: `o` falls when
        it is not zapped or queued yet and all its supporters are zapped. */
    method ExamineLink(x: nat, zapped: seq<nat>, queue0: seq<nat>, ghost parent0: seq<nat>, fallen0: nat, o: nat, ghost rest: seq<nat>)
      returns (queue: seq<nat>, ghost parent: seq<nat>, fallen: nat)
      requires Linked(supporters, supporting) && x < |supporting| && o in supporting[x]
      requires |zapped| >= 1 && zapped[|zapped| - 1] == x
      requires Searching(supporters, supporting, zapped, queue0, parent0, [o] + rest, fallen0)
      ensures Searching(supporters, supporting, zapped, queue, parent, rest, fallen)
    {
      assert InRange(supporting[x], |supporters|);
      if o !in zapped && o !in queue0 && Elems(supporters[o]) <= Elems(zapped) {
        SearchQueue(supporters, supporting, zapped, queue0, parent0, o, rest, fallen0);
        queue, parent, fallen := queue0 + [o], parent0 + [|zapped| - 1], fallen0 + 1;
      } else {
        SearchSkip(supporters, supporting, zapped, queue0, parent0, o, rest, fallen0);
        queue, parent, fallen := queue0, parent0, fallen0;
      }
    }

    /** `run_disintegration_chain`: for every brick, how many others fall
        when it is disintegrated, summed. */
    method RunDisintegrationChain() returns (total: int, ghost fells: seq<set<nat>>)
      requires Linked(supporters, supporting)
      ensures |fells| == |supporters| && total == FallenTotal(fells)
      ensures forall s :: 0 <= s < |fells| ==> FallSet(supporters, supporting, fells[s], s)
    {
      total, fells := 0, [];
      for brick := 0 to |supporters|
        invariant |fells| == brick && total == FallenTotal(fells)
        invariant forall s :: 0 <= s < brick ==> FallSet(supporters, supporting, fells[s], s)
      {
        var fallen, fell := Chain(brick);
        total := total + fallen;
        fells := fells + [fell];
        assert fells[..|fells| - 1] == fells[..brick];
      }
    }

    /** `get_disintegrate_count`: the bricks that are nobody's sole
        supporter. */
    method GetDisintegrateCount() returns (count: nat)
      ensures count == SafeCount(supporters, |supporters|)
    {
      count := 0;
      for brick := 0 to |supporters|
        invariant count == SafeCount(supporters, brick)
      {
        var sole := false;
        for other := 0 to |supporters|
          invariant !sole && forall o :: 0 <= o < other ==> !SoleSupporter(supporters[o], brick)
        {
          if Count(supporters[other], brick) == 1 && |supporters[other]| == 1 {
            sole := true;
            break;
          }
        }
        if !sole {
          count := count + 1;
        }
      }
    }
  }

  /** Lists filled from empty ones are the support structure. */
  lemma BuiltFromEmpty(b: seq<Brick>, sup0: seq<seq<nat>>, sting0: seq<seq<nat>>, sup: seq<seq<nat>>, sting: seq<seq<nat>>)
    requires |sup0| == |b| && |sting0| == |b| && |sup| == |b| && |sting| == |b|
    requires forall i :: 0 <= i < |b| ==> sup0[i] == [] && sting0[i] == []
    requires forall i :: 0 <= i < |b| ==> sup[i] == sup0[i] + SupportersUpTo(b, i, |b|)
    requires forall j :: 0 <= j < |b| ==> sting[j] == sting0[j] + SupportingUpTo(b, j, |b|)
    ensures sup == SupportersOf(b) && sting == SupportingOf(b)
  {
    forall i | 0 <= i < |b| ensures sup[i] == SupportersOf(b)[i] && sting[i] == SupportingOf(b)[i] {
      assert sup0[i] + SupportersUpTo(b, i, |b|) == SupportersUpTo(b, i, |b|);
      assert sting0[i] + SupportingUpTo(b, i, |b|) == SupportingUpTo(b, i, |b|);
    }
  }

  /** Part one's `main`: settle the snapshot, link it, count the safe
      bricks. */
  method PartOne(snapshot: seq<Brick>) returns (count: nat)
    ensures count == SafeCount(SupportersOf(Settle(snapshot)), |snapshot|)
  {
    var stack := new Stack(snapshot);
    stack.SimGravity();
    ghost var settled, sup0, sting0 := stack.bricks, stack.supporters, stack.supporting;
    stack.StoreSupportStructure();
    BuiltFromEmpty(settled, sup0, sting0, stack.supporters, stack.supporting);
    count := stack.GetDisintegrateCount();
  }

  /** Part two's `main`: settle, link, and sum what falls from each
      brick. */
  method PartTwo(snapshot: seq<Brick>) returns (total: int, ghost fells: seq<set<nat>>)
    ensures |fells| == |snapshot| && total == FallenTotal(fells)
    ensures forall s :: 0 <= s < |fells| ==>
      FallSet(SupportersOf(Settle(snapshot)), SupportingOf(Settle(snapshot)), fells[s], s)
  {
    var stack := new Stack(snapshot);
    stack.SimGravity();
    ghost var settled, sup0, sting0 := stack.bricks, stack.supporters, stack.supporting;
    stack.StoreSupportStructure();
    BuiltFromEmpty(settled, sup0, sting0, stack.supporters, stack.supporting);
    SupportStructureLinked(settled);
    total, fells := stack.RunDisintegrationChain();
  }
}
