/** The cycle search of Day 14, part two (D14/d14p2.py): run a step until
    a state repeats, measure the period, and use it to skip ahead to the
    state after a billion steps. Written for any deterministic step. */
module Cycles {

  import opened Wrappers

  const Target: nat := 1_000_000_000

  /** The state after `n` steps. */
  function Iter<T>(f: T -> T, x: T, n: nat): T
  {
    if n == 0 then x else f(Iter(f, x, n - 1))
  }

  lemma {:induction false} IterAdd<T>(f: T -> T, x: T, a: nat, b: nat)
    ensures Iter(f, x, a + b) == Iter(f, Iter(f, x, a), b)
    decreases b
  {
    if b > 0 {
      IterAdd(f, x, a, b - 1);
    }
  }

  /** Once the states return to an earlier one they repeat with that
      period. */
  lemma {:induction false} IterPeriodic<T>(f: T -> T, x: T, mu: nat, period: nat, t: nat, m: nat)
    requires Iter(f, x, mu + period) == Iter(f, x, mu)
    ensures Iter(f, x, mu + t + m * period) == Iter(f, x, mu + t)
    decreases m
  {
    if m > 0 {
      var rest := t + (m - 1) * period;
      IterPeriodic(f, x, mu, period, t, m - 1);
      IterAdd(f, x, mu + period, rest);
      IterAdd(f, x, mu, rest);
      assert mu + t + m * period == (mu + period) + rest;
    }
  }

  lemma MulLess(p: int, a: int, b: int)
    requires p > 0 && a < b
    ensures p * a < p * b
  {
    assert p * b - p * a == p * (b - a);
  }

  /** The remaining steps `(target - cycles - period) % period + 1` land on
      the target's state: the target is that many steps past the start of
      the period, plus whole periods. */
  lemma Remaining(target: nat, cycles: nat, mu: nat, period: nat) returns (m: nat)
    requires period >= 1 && cycles == mu + period + 1 && mu + period <= target
    ensures target == mu + ((target - cycles - period) % period + 1) + m * period
  {
    var x := target - cycles - period;
    var q := x / period;
    assert x == period * q + x % period;
    assert period * q > x - period;
    if q < -2 {
      MulLess(period, q, -2);
    }
    m := q + 2;
  }

  /** The cache entry of step `j`: its state maps to the next one. */
  predicate Cached<T(!new)>(f: T -> T, x: T, cache: map<T, T>, j: nat)
  {
    Iter(f, x, j) in cache && cache[Iter(f, x, j)] == Iter(f, x, j + 1)
  }

  /** The search in part two's `main`: the cache maps each state seen to
      its successor; once the current state is in the cache, follow the
      cache around the period, then `(target - cycles - period) % period
      + 1` more times. The first search is bounded by `fuel` steps, with
      `None` when they run out. */
  method SkipAhead<T(==,!new)>(f: T -> T, x: T, fuel: nat) returns (r: Option<T>)
    requires fuel <= Target
    ensures r.Some? ==> r.value == Iter(f, x, Target)
  {
    var found, rolled, cache, cycles := FindRepeat(f, x, fuel);
    if !found {
      return None;
    }
    ghost var k := cycles - 1;
    ghost var mu := SeenIndex(f, x, k, rolled);
    var period := Period(f, x, cache, rolled, k, mu);
    var needed := (Target - cycles - period) % period + 1;
    rolled := FollowCache(f, x, cache, rolled, k, mu, needed);
    var m := Remaining(Target, cycles, mu, period);
    IterPeriodic(f, x, mu, period, needed, m);
    r := Some(rolled);
  }

  /** The last loop of the search: `steps` more steps looked up in the
      cache. */
  method FollowCache<T(==,!new)>(f: T -> T, x: T, cache: map<T, T>, start: T, ghost k: nat, ghost from: nat, steps: nat)
    returns (rolled: T)
    requires from + steps <= k && start == Iter(f, x, from)
    requires forall j :: 0 <= j < k ==> Cached(f, x, cache, j)
    ensures rolled == Iter(f, x, from + steps)
  {
    rolled := start;
    for step := 0 to steps
      invariant rolled == Iter(f, x, from + step)
    {
      assert Cached(f, x, cache, from + step);
      rolled := cache[rolled];
    }
  }

  /** The states before step `n`. */
  function Seen<T>(f: T -> T, x: T, n: nat): set<T>
  {
    if n == 0 then {} else Seen(f, x, n - 1) + {Iter(f, x, n - 1)}
  }

  lemma {:induction false} SeenIndex<T>(f: T -> T, x: T, n: nat, y: T) returns (j: nat)
    requires y in Seen(f, x, n)
    ensures j < n && y == Iter(f, x, j)
  {
    if y == Iter(f, x, n - 1) {
      j := n - 1;
    } else {
      j := SeenIndex(f, x, n - 1, y);
    }
  }

  lemma {:induction false} SeenHas<T>(f: T -> T, x: T, n: nat, j: nat)
    requires j < n
    ensures Iter(f, x, j) in Seen(f, x, n)
  {
    if j < n - 1 {
      SeenHas(f, x, n - 1, j);
    }
  }

  /** Caching a state not seen before keeps the cache complete and the
      states seen distinct. */
  lemma CacheStep<T(!new)>(f: T -> T, x: T, cache: map<T, T>, n: nat)
    requires Iter(f, x, n) !in cache && cache.Keys == Seen(f, x, n)
    requires forall j :: 0 <= j < n ==> Cached(f, x, cache, j)
    requires forall i, j :: 0 <= i < j < n ==> Iter(f, x, i) != Iter(f, x, j)
    ensures var next := cache[Iter(f, x, n) := f(Iter(f, x, n))];
      && next.Keys == Seen(f, x, n + 1)
      && (forall j :: 0 <= j < n + 1 ==> Cached(f, x, next, j))
      && forall i, j :: 0 <= i < j < n + 1 ==> Iter(f, x, i) != Iter(f, x, j)
  {
    var next := cache[Iter(f, x, n) := f(Iter(f, x, n))];
    forall j | 0 <= j < n ensures Cached(f, x, next, j) && Iter(f, x, j) != Iter(f, x, n) {
      assert Cached(f, x, cache, j);
    }
    assert Iter(f, x, n + 1) == f(Iter(f, x, n));
  }

  /** The first loop of the search: step until the current state is a key
      of the cache, that is, until it repeats an earlier state. */
  method FindRepeat<T(==,!new)>(f: T -> T, x: T, fuel: nat) returns (found: bool, rolled: T, cache: map<T, T>, cycles: nat)
    ensures found ==> 1 <= cycles <= fuel + 1 && rolled == Iter(f, x, cycles - 1)
    ensures found ==> rolled in Seen(f, x, cycles - 1)
    ensures found ==> forall j :: 0 <= j < cycles - 1 ==> Cached(f, x, cache, j)
    ensures found ==> forall i, j :: 0 <= i < j < cycles - 1 ==> Iter(f, x, i) != Iter(f, x, j)
  {
    rolled := x;
    cache := map[];
    cycles := 1;
    while rolled !in cache
      invariant 1 <= cycles <= fuel + 1
      invariant rolled == Iter(f, x, cycles - 1)
      invariant cache.Keys == Seen(f, x, cycles - 1)
      invariant forall j :: 0 <= j < cycles - 1 ==> Cached(f, x, cache, j)
      invariant forall i, j :: 0 <= i < j < cycles - 1 ==> Iter(f, x, i) != Iter(f, x, j)
      decreases fuel + 1 - cycles
    {
      if cycles > fuel {
        return false, rolled, cache, cycles;
      }
      var next := f(rolled);
      CacheStep(f, x, cache, cycles - 1);
      cache := cache[rolled := next];
      rolled := next;
      cycles := cycles + 1;
    }
    found := true;
  }

  /** The second loop: follow the cache from the repeated state until it
      comes back; the number of steps is the period. */
  method Period<T(==,!new)>(f: T -> T, x: T, cache: map<T, T>, start: T, ghost k: nat, ghost mu: nat) returns (period: nat)
    requires mu < k && start == Iter(f, x, mu) && Iter(f, x, k) == start
    requires forall j :: 0 <= j < k ==> Cached(f, x, cache, j)
    requires forall i, j :: 0 <= i < j < k ==> Iter(f, x, i) != Iter(f, x, j)
    ensures period == k - mu
  {
    var rolled := start;
    period := 0;
    while true
      invariant 0 <= period < k - mu
      invariant rolled == Iter(f, x, mu + period)
      decreases k - mu - period
    {
      assert Cached(f, x, cache, mu + period);
      rolled := cache[rolled];
      period := period + 1;
      if rolled == start {
        break;
      }
    }
  }
}
