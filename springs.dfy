/** Day 12 (D12/d12p1.py, D12/d12p2.py): condition records of hot
    springs. `#` is a damaged spring, `.` an operational one and any other
    character unknown. Part one tries every way of settling the unknowns
    and checks each full record against the group sizes; part two counts
    the same arrangements in one left-to-right pass over the record. */
module Springs {

  import opened Wrappers
  import opened Arith
  import opened Text

  /** Every spring is known. */
  predicate Settled(c: string)
  {
    forall k :: 0 <= k < |c| ==> c[k] == '#' || c[k] == '.'
  }

  function Pow2(n: nat): (p: nat)
    ensures p >= 1
  {
    if n == 0 then 1 else 2 * Pow2(n - 1)
  }

  /** The number of unknown springs. */
  function Unknowns(s: string): nat
  {
    if s == [] then 0 else (if s[0] == '#' || s[0] == '.' then 0 else 1) + Unknowns(s[1..])
  }

  /** The sum of `f` over every settling of `s`: each unknown becomes
      `#` in one branch and `.` in the other. */
  function SumOver(s: string, f: string -> nat): nat
    decreases |s|
  {
    if s == [] then f([])
    else if s[0] == '#' || s[0] == '.' then SumOver(s[1..], c => f([s[0]] + c))
    else SumOver(s[1..], c => f("#" + c)) + SumOver(s[1..], c => f("." + c))
  }

  /** Only the values on settled records of the right length matter. */
  lemma {:induction false} SumOverSettled(s: string, f: string -> nat, g: string -> nat)
    requires forall c :: Settled(c) && |c| == |s| ==> f(c) == g(c)
    ensures SumOver(s, f) == SumOver(s, g)
    decreases |s|
  {
    if s != [] {
      forall x: char, c | (x == '#' || x == '.') && Settled(c) && |c| == |s| - 1
        ensures f([x] + c) == g([x] + c)
      {
        assert Settled([x] + c);
      }
      if s[0] == '#' || s[0] == '.' {
        SumOverSettled(s[1..], c => f([s[0]] + c), c => g([s[0]] + c));
      } else {
        SumOverSettled(s[1..], c => f("#" + c), c => g("#" + c));
        SumOverSettled(s[1..], c => f("." + c), c => g("." + c));
      }
    }
  }

  /** With values at most one the sum is at most the number of settlings. */
  lemma {:induction false} SumOverBound(s: string, f: string -> nat)
    requires forall c :: f(c) <= 1
    ensures SumOver(s, f) <= Pow2(Unknowns(s))
    decreases |s|
  {
    if s != [] {
      if s[0] == '#' || s[0] == '.' {
        SumOverBound(s[1..], c => f([s[0]] + c));
      } else {
        SumOverBound(s[1..], c => f("#" + c));
        SumOverBound(s[1..], c => f("." + c));
      }
    }
  }

  // ---------------------------------------------------------------
  // Part one: `is_valid` and `backtrack`
  // ---------------------------------------------------------------

  /** The non-empty pieces of a split, as the list comprehension keeps them. */
  function NonEmpty(parts: seq<string>): (r: seq<string>)
    ensures forall k :: 0 <= k < |r| ==> r[k] != []
  {
    if parts == [] then []
    else if parts[0] == [] then NonEmpty(parts[1..])
    else [parts[0]] + NonEmpty(parts[1..])
  }

  /** The runs of a record: the non-empty pieces between `.`s. */
  function Groups(c: string): seq<string>
  {
    NonEmpty(Split(c, '.'))
  }

  function Lengths(gs: seq<string>): (r: seq<int>)
    ensures |r| == |gs| && forall k :: 0 <= k < |gs| ==> r[k] == |gs[k]|
  {
    if gs == [] then [] else [|gs[0]|] + Lengths(gs[1..])
  }

  /** The sizes of the damaged runs of a record. */
  function RunLengths(c: string): seq<int>
  {
    Lengths(Groups(c))
  }

  /** `is_valid`'s loop over the runs; `None` is the `IndexError` raised
      when there are more runs than sizes. */
  function CheckGroups(gs: seq<string>, sizes: seq<int>): Option<bool>
  {
    if gs == [] then Some(true)
    else if sizes == [] then None
    else if Occurrences(gs[0], '#') != sizes[0] then Some(false)
    else CheckGroups(gs[1..], sizes[1..])
  }

  /** `is_valid`: the damaged count must equal the sum of the sizes, then
      each run must hold its size's worth of `#`. */
  function IsValid(c: string, sizes: seq<int>): Option<bool>
  {
    if Occurrences(c, '#') != Sum(sizes) then Some(false) else CheckGroups(Groups(c), sizes)
  }

  /** A full record counts one if it is valid. */
  function Valid(c: string, sizes: seq<int>): nat
  {
    if IsValid(c, sizes) == Some(true) then 1 else 0
  }

  /** `backtrack`: settles the springs from `index` on, one at a time. The
      record before `index` has been settled already, which the call from
      index 0 meets trivially. */
  function Backtrack(s: string, sizes: seq<int>, index: nat): nat
    requires index <= |s| && Settled(s[..index])
    decreases |s| - index
  {
    if index == |s| then Valid(s, sizes)
    else if s[index] == '#' || s[index] == '.' then
      assert s[..index + 1] == s[..index] + [s[index]];
      Backtrack(s, sizes, index + 1)
    else
      assert s[index := '#'][..index + 1] == s[..index] + "#";
      assert s[index := '.'][..index + 1] == s[..index] + ".";
      Backtrack(s[index := '#'], sizes, index + 1) + Backtrack(s[index := '.'], sizes, index + 1)
  }

  /** `backtrack` adds up `is_valid` over every settling of the unknowns. */
  lemma {:induction false} BacktrackCounts(s: string, sizes: seq<int>, index: nat)
    requires index <= |s| && Settled(s[..index])
    ensures Backtrack(s, sizes, index) == SumOver(s[index..], c => Valid(s[..index] + c, sizes))
    decreases |s| - index
  {
    var prefix := s[..index];
    var count := c => Valid(prefix + c, sizes);
    if index == |s| {
      assert prefix + [] == s;
    } else {
      var rest := s[index + 1..];
      assert s[index..][1..] == rest && s[index..][0] == s[index];
      if s[index] == '#' || s[index] == '.' {
        assert s[..index + 1] == prefix + [s[index]];
        BacktrackCounts(s, sizes, index + 1);
        forall c: string ensures s[..index + 1] + c == prefix + ([s[index]] + c) {
        }
        SumOverSettled(rest, c => Valid(s[..index + 1] + c, sizes), c => count([s[index]] + c));
      } else {
        var hash, dot := s[index := '#'], s[index := '.'];
        assert hash[..index + 1] == prefix + "#" && hash[index + 1..] == rest;
        assert dot[..index + 1] == prefix + "." && dot[index + 1..] == rest;
        BacktrackCounts(hash, sizes, index + 1);
        BacktrackCounts(dot, sizes, index + 1);
        forall c: string ensures hash[..index + 1] + c == prefix + ("#" + c) && dot[..index + 1] + c == prefix + ("." + c) {
        }
        SumOverSettled(rest, c => Valid(hash[..index + 1] + c, sizes), c => count("#" + c));
        SumOverSettled(rest, c => Valid(dot[..index + 1] + c, sizes), c => count("." + c));
      }
    }
  }

  /** Part one's count is at most two to the number of unknowns. */
  lemma BacktrackBound(s: string, sizes: seq<int>)
    ensures Backtrack(s, sizes, 0) <= Pow2(Unknowns(s))
  {
    BacktrackCounts(s, sizes, 0);
    assert s[0..] == s;
    SumOverBound(s, c => Valid(s[..0] + c, sizes));
  }

  // ---------------------------------------------------------------
  // What `is_valid` accepts on a settled record
  // ---------------------------------------------------------------

  /** All sizes positive, as in every puzzle record. */
  predicate Positive(sizes: seq<int>)
  {
    forall k :: 0 <= k < |sizes| ==> sizes[k] > 0
  }

  lemma {:induction false} AllDamaged(p: string)
    requires Settled(p) && '.' !in p
    ensures Occurrences(p, '#') == |p|
  {
    if p != [] {
      assert p[0] == '#';
      AllDamaged(p[1..]);
    }
  }

  lemma {:induction false} SumCons(x: int, xs: seq<int>)
    ensures Sum([x] + xs) == x + Sum(xs)
  {
    SumAppend([x], xs);
    assert [x] == [] + [x];
  }

  lemma {:induction false} NonEmptyPrepend(p: string, parts: seq<string>)
    ensures NonEmpty([p] + parts) == (if p == [] then [] else [p]) + NonEmpty(parts)
  {
    assert ([p] + parts)[1..] == parts;
  }

  /** On a settled record the damaged count is the sum of the run sizes. */
  lemma {:induction false} SettledCount(c: string)
    requires Settled(c)
    ensures Occurrences(c, '#') == Sum(RunLengths(c))
    decreases |c|
  {
    if '.' in c {
      var b, a := Before(c, '.'), After(c, '.');
      SettledPieces(c);
      SettledCount(a);
      assert Occurrences(c, '#') == |b| + Occurrences(a, '#') by {
        AllDamaged(b);
        OccurrencesAppend(b + ".", a, '#');
        OccurrencesAppend(b, ".", '#');
      }
      var first := if b == [] then [] else [b];
      assert Sum(RunLengths(c)) == |b| + Sum(RunLengths(a)) by {
        GroupsFirst(c);
        LengthsAppend(first, Groups(a));
        SumAppend(Lengths(first), RunLengths(a));
        if b != [] {
          SumCons(|b|, []);
        }
      }
    } else {
      AllDamaged(c);
      OneRun(c);
      if c != [] {
        SumCons(|c|, []);
      }
    }
  }

  /** A record without `.` is one run (none if empty). */
  lemma OneRun(c: string)
    requires '.' !in c
    ensures Groups(c) == if c == [] then [] else [c]
    ensures RunLengths(c) == if c == [] then [] else [|c|]
  {
    NonEmptyPrepend(c, []);
    assert Split(c, '.') == [c] + [];
  }

  /** Every run of a settled record is all damaged springs. */
  lemma {:induction false} SettledGroupsDamaged(c: string)
    requires Settled(c)
    ensures forall k :: 0 <= k < |Groups(c)| ==> Occurrences(Groups(c)[k], '#') == |Groups(c)[k]|
    decreases |c|
  {
    if '.' in c {
      var b, a := Before(c, '.'), After(c, '.');
      SettledPieces(c);
      SettledGroupsDamaged(a);
      AllDamaged(b);
      GroupsFirst(c);
    } else {
      AllDamaged(c);
      OneRun(c);
    }
  }

  lemma SettledPieces(c: string)
    requires Settled(c) && '.' in c
    ensures c == Before(c, '.') + "." + After(c, '.')
    ensures Settled(Before(c, '.')) && Settled(After(c, '.'))
  {
    var b, a := Before(c, '.'), After(c, '.');
    assert c == b + "." + a;
    forall k | 0 <= k < |b| ensures b[k] == '#' || b[k] == '.' {
      assert b[k] == c[k];
    }
    forall k | 0 <= k < |a| ensures a[k] == '#' || a[k] == '.' {
      assert a[k] == c[|b| + 1 + k];
    }
  }

  lemma GroupsFirst(c: string)
    requires '.' in c
    ensures Groups(c) == (if Before(c, '.') == [] then [] else [Before(c, '.')]) + Groups(After(c, '.'))
  {
    NonEmptyPrepend(Before(c, '.'), Split(After(c, '.'), '.'));
  }

  lemma {:induction false} LengthsAppend(a: seq<string>, b: seq<string>)
    ensures Lengths(a + b) == Lengths(a) + Lengths(b)
  {
    if a == [] {
      assert a + b == b;
    } else {
      assert (a + b)[1..] == a[1..] + b;
      LengthsAppend(a[1..], b);
    }
  }

  /** Runs of exactly their sizes pass the check; with equal totals the
      check never runs out of sizes. */
  lemma {:induction false} CheckGroupsRuns(gs: seq<string>, sizes: seq<int>)
    requires forall k :: 0 <= k < |gs| ==> gs[k] != [] && Occurrences(gs[k], '#') == |gs[k]|
    requires Sum(Lengths(gs)) == Sum(sizes)
    ensures CheckGroups(gs, sizes).Some?
    ensures Positive(sizes) ==> (CheckGroups(gs, sizes).value <==> Lengths(gs) == sizes)
  {
    if gs == [] {
      if Positive(sizes) && sizes != [] {
        PositiveSum(sizes);
      }
    } else {
      SumCons(|gs[0]|, Lengths(gs[1..]));
      if sizes == [] {
        NonNegativeSum(Lengths(gs[1..]));
      } else {
        assert sizes == [sizes[0]] + sizes[1..];
        SumCons(sizes[0], sizes[1..]);
        if Occurrences(gs[0], '#') == sizes[0] {
          CheckGroupsRuns(gs[1..], sizes[1..]);
        }
      }
    }
  }

  lemma {:induction false} PositiveSum(xs: seq<int>)
    requires Positive(xs) && xs != []
    ensures Sum(xs) > 0
  {
    var init := xs[..|xs| - 1];
    if init != [] {
      PositiveSum(init);
    }
  }

  lemma {:induction false} NonNegativeSum(xs: seq<int>)
    requires forall k :: 0 <= k < |xs| ==> xs[k] >= 0
    ensures Sum(xs) >= 0
  {
    if xs != [] {
      NonNegativeSum(xs[..|xs| - 1]);
    }
  }

  /** `is_valid` on a settled record never fails, and with positive sizes
      it holds exactly when the runs have those sizes in order. */
  lemma IsValidMeansRuns(c: string, sizes: seq<int>)
    requires Settled(c)
    ensures IsValid(c, sizes).Some?
    ensures Positive(sizes) ==> (IsValid(c, sizes) == Some(true) <==> RunLengths(c) == sizes)
  {
    SettledCount(c);
    SettledGroupsDamaged(c);
    if Occurrences(c, '#') == Sum(sizes) {
      CheckGroupsRuns(Groups(c), sizes);
    }
  }

  // ---------------------------------------------------------------
  // Part two: the memoised one-pass count
  // ---------------------------------------------------------------

  /** `backtrack` of part two: `seen` damaged springs have been read into
      the current run, and `sizes` are the runs still to match. The cache
      only saves work and is left out. `seen` is positive only while a run
      is open, so `sizes` is then non-empty, as every call from `seen` 0
      keeps it. */
  function Count(s: string, sizes: seq<int>, seen: nat): nat
    requires seen == 0 || sizes != []
    decreases |s|, if s != [] && s[0] != '#' && s[0] != '.' then 1 else 0
  {
    if s == [] then
      if |sizes| == 0 || (|sizes| == 1 && sizes[0] == seen) then 1 else 0
    else if s[0] == '#' then
      if |sizes| == 0 || seen + 1 > sizes[0] then 0 else Count(s[1..], sizes, seen + 1)
    else if s[0] == '.' then
      if seen > 0 && seen != sizes[0] then 0
      else if seen > 0 && seen == sizes[0] then Count(s[1..], sizes[1..], 0)
      else Count(s[1..], sizes, 0)
    else
      Count("#" + s[1..], sizes, seen) + Count("." + s[1..], sizes, seen)
  }

  /** `k` damaged springs. */
  function Hashes(k: nat): (h: string)
    ensures |h| == k && '.' !in h
  {
    if k == 0 then [] else Hashes(k - 1) + "#"
  }

  lemma RunsAfterDot(c: string)
    ensures RunLengths("." + c) == RunLengths(c)
  {
    assert Before("." + c, '.') == [] && After("." + c, '.') == c;
    NonEmptyPrepend([], Split(c, '.'));
  }

  lemma RunThenDot(k: nat, c: string)
    requires k > 0
    ensures RunLengths(Hashes(k) + "." + c) == [k] + RunLengths(c)
  {
    BeforeAfterJoined(Hashes(k), '.', c);
    NonEmptyPrepend(Hashes(k), Split(c, '.'));
    assert Lengths([Hashes(k)] + Groups(c)) == [k] + Lengths(Groups(c));
  }

  lemma RunAlone(k: nat)
    ensures RunLengths(Hashes(k)) == if k == 0 then [] else [k]
  {
    NonEmptyPrepend(Hashes(k), []);
    assert Split(Hashes(k), '.') == [Hashes(k)] + [];
  }

  /** A record opening with `m` damaged springs has a first run of at
      least `m`. */
  lemma RunAtLeast(m: nat, c: string)
    requires m > 0
    ensures RunLengths(Hashes(m) + c) != [] && RunLengths(Hashes(m) + c)[0] >= m
  {
    var s := Hashes(m) + c;
    BeforeAppend(Hashes(m), c, '.');
    var first := if '.' in c then Before(s, '.') else s;
    assert Split(s, '.') == [first] + (if '.' in c then Split(After(s, '.'), '.') else []);
    NonEmptyPrepend(first, if '.' in c then Split(After(s, '.'), '.') else []);
  }

  /** On a settled record the one-pass count is one exactly when the
      record, with the open run's `seen` springs in front, has runs of
      the given sizes. */
  lemma {:induction false} CountSettled(c: string, sizes: seq<int>, seen: nat)
    requires Settled(c) && Positive(sizes)
    requires seen == 0 || (sizes != [] && seen <= sizes[0])
    ensures Count(c, sizes, seen) == if RunLengths(Hashes(seen) + c) == sizes then 1 else 0
    decreases |c|, 1
  {
    if c == [] {
      RunAlone(seen);
      assert Hashes(seen) + c == Hashes(seen);
    } else {
      var rest := c[1..];
      assert Settled(rest) by {
        forall k | 0 <= k < |rest| ensures rest[k] == '#' || rest[k] == '.' {
          assert rest[k] == c[k + 1];
        }
      }
      if c[0] == '#' {
        CountSettledDamaged(c, sizes, seen);
      } else {
        assert c[0] == '.' && c == "." + rest;
        if seen > 0 {
          assert Hashes(seen) + c == Hashes(seen) + "." + rest;
          RunThenDot(seen, rest);
          if seen == sizes[0] {
            assert sizes == [sizes[0]] + sizes[1..];
            CountSettled(rest, sizes[1..], 0);
            assert Hashes(0) + rest == rest;
          }
        } else {
          assert Hashes(seen) + c == "." + rest;
          RunsAfterDot(rest);
          CountSettled(rest, sizes, 0);
          assert Hashes(0) + rest == rest;
        }
      }
    }
  }

  /** The damaged-spring case of `CountSettled`. */
  lemma {:induction false} CountSettledDamaged(c: string, sizes: seq<int>, seen: nat)
    requires Settled(c) && Positive(sizes) && c != [] && c[0] == '#'
    requires seen == 0 || (sizes != [] && seen <= sizes[0])
    ensures Count(c, sizes, seen) == if RunLengths(Hashes(seen) + c) == sizes then 1 else 0
    decreases |c|, 0
  {
    var rest := c[1..];
    assert Settled(rest) by {
      forall k | 0 <= k < |rest| ensures rest[k] == '#' || rest[k] == '.' {
        assert rest[k] == c[k + 1];
      }
    }
    assert Hashes(seen) + c == Hashes(seen + 1) + rest;
    RunAtLeast(seen + 1, rest);
    if sizes != [] && seen + 1 <= sizes[0] {
      CountSettled(rest, sizes, seen + 1);
    }
  }

  /** The one-pass count adds up its own verdicts on every settling. */
  lemma {:induction false} CountCounts(s: string, sizes: seq<int>, seen: nat)
    requires seen == 0 || sizes != []
    ensures Count(s, sizes, seen) == SumOver(s, c => Count(c, sizes, seen))
    decreases |s|, if s != [] && s[0] != '#' && s[0] != '.' then 1 else 0
  {
    var verdict := c => Count(c, sizes, seen);
    if s != [] {
      var rest := s[1..];
      if s[0] == '#' || s[0] == '.' {
        var x := s[0];
        if x == '#' && (|sizes| == 0 || seen + 1 > sizes[0]) {
          forall c: string ensures verdict([x] + c) == 0 {
            assert ([x] + c)[0] == x;
          }
          SumOverZero(rest, c => verdict([x] + c));
        } else if x == '.' && seen > 0 && seen != sizes[0] {
          forall c: string ensures verdict([x] + c) == 0 {
            assert ([x] + c)[0] == x;
          }
          SumOverZero(rest, c => verdict([x] + c));
        } else {
          var next: (seq<int>, nat) := if x == '#' then (sizes, seen + 1) else if seen > 0 then (sizes[1..], 0) else (sizes, 0);
          var (sizes', seen') := next;
          forall c: string ensures verdict([x] + c) == Count(c, sizes', seen') {
            assert ([x] + c)[0] == x && ([x] + c)[1..] == c;
          }
          CountCounts(rest, sizes', seen');
          SumOverSettled(rest, c => verdict([x] + c), c => Count(c, sizes', seen'));
        }
      } else {
        var hash, dot := "#" + rest, "." + rest;
        assert hash[1..] == rest && dot[1..] == rest;
        CountCounts(hash, sizes, seen);
        CountCounts(dot, sizes, seen);
        SumOverSettled(rest, c => verdict([hash[0]] + c), c => verdict("#" + c));
        SumOverSettled(rest, c => verdict([dot[0]] + c), c => verdict("." + c));
      }
    }
  }

  lemma {:induction false} SumOverZero(s: string, f: string -> nat)
    requires forall c :: f(c) == 0
    ensures SumOver(s, f) == 0
    decreases |s|
  {
    if s != [] {
      if s[0] == '#' || s[0] == '.' {
        SumOverZero(s[1..], c => f([s[0]] + c));
      } else {
        SumOverZero(s[1..], c => f("#" + c));
        SumOverZero(s[1..], c => f("." + c));
      }
    }
  }

  /** With positive sizes the one-pass count of part two equals part
      one's exhaustive count. */
  lemma CountMatchesBacktrack(s: string, sizes: seq<int>)
    requires Positive(sizes)
    ensures Count(s, sizes, 0) == Backtrack(s, sizes, 0)
  {
    CountCounts(s, sizes, 0);
    BacktrackCounts(s, sizes, 0);
    assert s[0..] == s;
    forall c | Settled(c) && |c| == |s|
      ensures Count(c, sizes, 0) == Valid(s[..0] + c, sizes)
    {
      CountSettled(c, sizes, 0);
      IsValidMeansRuns(c, sizes);
      assert Hashes(0) + c == c && s[..0] + c == c;
    }
    SumOverSettled(s, c => Count(c, sizes, 0), c => Valid(s[..0] + c, sizes));
  }

  /** `n` copies of `x`. */
  function Copies<T>(x: T, n: nat): (r: seq<T>)
    ensures |r| == n && forall k :: 0 <= k < n ==> r[k] == x
  {
    if n == 0 then [] else Copies(x, n - 1) + [x]
  }

  /** `sizes * n`: the list repeated `n` times. */
  function Repeat<T>(xs: seq<T>, n: nat): (r: seq<T>)
    ensures |r| == n * |xs|
  {
    if n == 0 then [] else Repeat(xs, n - 1) + xs
  }

  /** Part two's `parse_input`: five copies of the record joined by `?`,
      and five copies of the sizes. */
  function Unfold(record: string, sizes: seq<int>): (string, seq<int>)
  {
    (Join(Copies(record, 5), '?'), Repeat(sizes, 5))
  }

  lemma {:induction false} UnknownsAppend(a: string, b: string)
    ensures Unknowns(a + b) == Unknowns(a) + Unknowns(b)
  {
    if a == [] {
      assert a + b == b;
    } else {
      assert (a + b)[0] == a[0] && (a + b)[1..] == a[1..] + b;
      UnknownsAppend(a[1..], b);
    }
  }

  lemma {:induction false} JoinCopies(record: string, n: nat)
    requires n >= 1
    ensures |Join(Copies(record, n), '?')| == n * |record| + n - 1
    ensures Unknowns(Join(Copies(record, n), '?')) == n * Unknowns(record) + n - 1
  {
    if n > 1 {
      assert Copies(record, n)[1..] == Copies(record, n - 1);
      JoinCopies(record, n - 1);
      var rest := Join(Copies(record, n - 1), '?');
      UnknownsAppend(record + "?", rest);
      UnknownsAppend(record, "?");
      assert n * |record| == (n - 1) * |record| + |record|;
      assert n * Unknowns(record) == (n - 1) * Unknowns(record) + Unknowns(record);
    }
  }

  lemma {:induction false} RepeatSum(xs: seq<int>, n: nat)
    ensures Sum(Repeat(xs, n)) == n * Sum(xs)
    ensures Positive(xs) ==> Positive(Repeat(xs, n))
  {
    if n > 0 {
      RepeatSum(xs, n - 1);
      SumAppend(Repeat(xs, n - 1), xs);
      assert n * Sum(xs) == (n - 1) * Sum(xs) + Sum(xs);
      if Positive(xs) {
        RepeatPositive(Repeat(xs, n - 1), xs);
      }
    }
  }

  lemma RepeatPositive(front: seq<int>, xs: seq<int>)
    requires Positive(front) && Positive(xs)
    ensures Positive(front + xs)
  {
    var r := front + xs;
    forall k | 0 <= k < |r| ensures r[k] > 0 {
      if k >= |front| {
        assert r[k] == xs[k - |front|];
      }
    }
  }

  /** The unfolded record is five times as long plus four joints, each
      joint a new unknown; the sizes add up to five times as much and stay
      positive. So part one's search would try up to 2^(5u + 4) settlings
      for a record with u unknowns. */
  lemma UnfoldShape(record: string, sizes: seq<int>)
    ensures |Unfold(record, sizes).0| == 5 * |record| + 4
    ensures Unknowns(Unfold(record, sizes).0) == 5 * Unknowns(record) + 4
    ensures Sum(Unfold(record, sizes).1) == 5 * Sum(sizes)
    ensures Positive(sizes) ==> Positive(Unfold(record, sizes).1)
  {
    JoinCopies(record, 5);
    RepeatSum(sizes, 5);
  }

  /** A record with no unknowns is recovered by splitting the unfolded one
      at `?`. */
  lemma UnfoldSplits(record: string, sizes: seq<int>)
    requires '?' !in record
    ensures Split(Unfold(record, sizes).0, '?') == Copies(record, 5)
  {
    SplitJoin(Copies(record, 5), '?');
  }

  /** Part one's `get_sum_of_arrangements`. */
  method SumOfArrangements(records: seq<string>, sizes: seq<seq<int>>) returns (total: int)
    requires |records| == |sizes|
    ensures total == Sum(seq(|records|, i requires 0 <= i < |records| => Backtrack(records[i], sizes[i], 0)))
  {
    ghost var counts: seq<int> := [];
    total := 0;
    for i := 0 to |records|
      invariant counts == seq(i, k requires 0 <= k < i => Backtrack(records[k], sizes[k], 0))
      invariant total == Sum(counts)
    {
      var n := Backtrack(records[i], sizes[i], 0);
      counts := counts + [n];
      total := total + n;
    }
  }

  /** Part two's `get_sum_of_arrangements`. */
  method SumOfCounts(records: seq<string>, sizes: seq<seq<int>>) returns (total: int)
    requires |records| == |sizes|
    ensures total == Sum(seq(|records|, i requires 0 <= i < |records| => Count(records[i], sizes[i], 0)))
  {
    ghost var counts: seq<int> := [];
    total := 0;
    for i := 0 to |records|
      invariant counts == seq(i, k requires 0 <= k < i => Count(records[k], sizes[k], 0))
      invariant total == Sum(counts)
    {
      var n := Count(records[i], sizes[i], 0);
      counts := counts + [n];
      total := total + n;
    }
  }

  /** With positive sizes both parts' totals agree on the same records. */
  lemma TotalsAgree(records: seq<string>, sizes: seq<seq<int>>)
    requires |records| == |sizes| && forall i :: 0 <= i < |sizes| ==> Positive(sizes[i])
    ensures Sum(seq(|records|, i requires 0 <= i < |records| => Count(records[i], sizes[i], 0)))
         == Sum(seq(|records|, i requires 0 <= i < |records| => Backtrack(records[i], sizes[i], 0)))
  {
    forall i | 0 <= i < |records| ensures Count(records[i], sizes[i], 0) == Backtrack(records[i], sizes[i], 0) {
      CountMatchesBacktrack(records[i], sizes[i]);
    }
    assert seq(|records|, i requires 0 <= i < |records| => Count(records[i], sizes[i], 0))
        == seq(|records|, i requires 0 <= i < |records| => Backtrack(records[i], sizes[i], 0));
  }
}
