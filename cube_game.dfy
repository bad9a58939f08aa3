/** Day 2: the cube game. Each game is a line of reveals separated by
    `"; "`; a reveal names counts of red, green and blue cubes. Part one
    sums the numbers of the games a bag of 12 red, 13 green and 14 blue
    cubes allows; part two sums the powers of the smallest bags. */
module CubeGame {
  import opened Wrappers
  import opened Text

  datatype Colour = Red | Green | Blue

  /** One reveal, or a bag: a count per colour. */
  datatype Cubes = Cubes(red: nat, green: nat, blue: nat)

  function Get(c: Cubes, colour: Colour): nat
  {
    match colour
    case Red => c.red
    case Green => c.green
    case Blue => c.blue
  }

  /** `reveal[colour] = n`: only that colour changes. */
  function Put(c: Cubes, colour: Colour, n: nat): (d: Cubes)
    ensures Get(d, colour) == n
    ensures forall other :: other != colour ==> Get(d, other) == Get(c, other)
  {
    match colour
    case Red => c.(red := n)
    case Green => c.(green := n)
    case Blue => c.(blue := n)
  }

  // Splitting a line into reveals: `line.split('; ')`.

  /** `sep` occurs in `s` at index `k`. */
  predicate Occurs(s: string, sep: string, k: nat)
  {
    k + |sep| <= |s| && s[k..k + |sep|] == sep
  }

  /** The first index at or after `i` where `sep` occurs in `s`. */
  function Find(s: string, sep: string, i: nat): (r: Option<nat>)
    requires sep != [] && i <= |s|
    ensures r.Some? ==> i <= r.value && Occurs(s, sep, r.value)
    ensures forall k :: i <= k && (r.Some? ==> k < r.value) ==> !Occurs(s, sep, k)
    decreases |s| - i
  {
    if i + |sep| > |s| then None
    else if s[i..i + |sep|] == sep then Some(i)
    else Find(s, sep, i + 1)
  }

  /** Python's `s.split(sep)` for a non-empty separator: the pieces
      between the occurrences of `sep`, found left to right. */
  function SplitOn(s: string, sep: string): (parts: seq<string>)
    requires sep != []
    ensures |parts| >= 1
    decreases |s|
  {
    match Find(s, sep, 0)
    case None => [s]
    case Some(i) => [s[..i]] + SplitOn(s[i + |sep|..], sep)
  }

  /** Python's `sep.join(parts)`. */
  function JoinOn(parts: seq<string>, sep: string): string
    requires |parts| >= 1
  {
    if |parts| == 1 then parts[0] else parts[0] + sep + JoinOn(parts[1..], sep)
  }

  /** Joining the pieces of a split with the separator gives back the
      line. */
  lemma {:induction false} JoinSplitOn(s: string, sep: string)
    requires sep != []
    ensures JoinOn(SplitOn(s, sep), sep) == s
    decreases |s|
  {
    var f := Find(s, sep, 0);
    if f.Some? {
      var i := f.value;
      var rest := s[i + |sep|..];
      JoinSplitOn(rest, sep);
      var parts := SplitOn(s, sep);
      assert parts == [s[..i]] + SplitOn(rest, sep);
      CutAt(s, sep, i);
    }
  }

  /** A string is the part before an occurrence of `sep`, `sep`, and the
      part after it. */
  lemma CutAt(s: string, sep: string, i: nat)
    requires Occurs(s, sep, i)
    ensures s == s[..i] + sep + s[i + |sep|..]
  {
    assert s == s[..i] + s[i..i + |sep|] + s[i + |sep|..];
  }

  /** No piece but the last holds the separator: the split stops at the
      first occurrence each time. */
  lemma {:induction false} SplitOnPieces(s: string, sep: string)
    requires sep != []
    ensures forall q: nat, k: nat :: q < |SplitOn(s, sep)| - 1 ==> !Occurs(SplitOn(s, sep)[q], sep, k)
    decreases |s|
  {
    match Find(s, sep, 0)
    case None =>
    case Some(i) =>
      var rest := s[i + |sep|..];
      SplitOnPieces(rest, sep);
      var parts := SplitOn(s, sep);
      forall q: nat, k: nat | q < |parts| - 1
        ensures !Occurs(parts[q], sep, k)
      {
        if q == 0 {
          assert parts[0] == s[..i];
          if Occurs(parts[0], sep, k) {
            assert parts[0][k..k + |sep|] == s[k..k + |sep|];
            assert Occurs(s, sep, k);
          }
        } else {
          assert parts[q] == SplitOn(rest, sep)[q - 1];
        }
      }
  }

  // Reading counts: `re.findall(r'(\d+) (red|blue|green)', reveal)`.

  /** The colour word after a space at index `j`, with the length of
      the space and the word. */
  function ColourAt(s: string, j: nat): (r: Option<(Colour, nat)>)
    requires j <= |s|
    ensures r.Some? ==> j + r.value.1 <= |s| && r.value.1 == ColourLength(r.value.0)
  {
    if " red" <= s[j..] then Some((Red, 4))
    else if " blue" <= s[j..] then Some((Blue, 5))
    else if " green" <= s[j..] then Some((Green, 6))
    else None
  }

  /** The match of the pattern that starts at index `i`, if any, with
      the index just past it. */
  function MatchFrom(s: string, i: nat): (r: Option<((nat, Colour), nat)>)
    requires i < |s|
    ensures r.Some? ==> i < r.value.1 <= |s| && MatchAt(s, i, RunEnd(s, i), r.value.0)
  {
    if !IsDigit(s[i]) then None
    else
      var j := RunEnd(s, i);
      match ColourAt(s, j)
      case None => None
      case Some((colour, len)) => Some(((DigitsValue(s[i..j]), colour), j + len))
  }

  /** The matches of the pattern from index `i` on, left to right and not
      overlapping: a digit run followed by a space and a colour word. The
      search restarts one character later wherever the pattern fails. */
  function Findall(s: string, i: nat): seq<(nat, Colour)>
    requires i <= |s|
    decreases |s| - i
  {
    if i == |s| then []
    else
      match MatchFrom(s, i)
      case None => Findall(s, i + 1)
      case Some((m, next)) => [m] + Findall(s, next)
  }

  /** `"<digits> <colour>"` with the digits at `a .. b` stands in `s`,
      and `m` holds their value and the colour. */
  predicate MatchAt(s: string, a: nat, b: nat, m: (nat, Colour))
  {
    a < b <= |s| && (forall k :: a <= k < b ==> IsDigit(s[k])) &&
    m.0 == DigitsValue(s[a..b]) && ColourAt(s, b) == Some((m.1, ColourLength(m.1)))
  }

  /** The `q`-th match stands for `"<digits> <colour>"` at some index
      `a .. b` at or after `i`. */
  lemma {:induction false} FindallSound(s: string, i: nat, q: nat) returns (a: nat, b: nat)
    requires i <= |s| && q < |Findall(s, i)|
    ensures i <= a && MatchAt(s, a, b, Findall(s, i)[q])
    decreases |s| - i
  {
    match MatchFrom(s, i)
    case None =>
      a, b := FindallSound(s, i + 1, q);
    case Some((m, next)) =>
      if q == 0 {
        a, b := i, RunEnd(s, i);
      } else {
        a, b := FindallSound(s, next, q - 1);
      }
  }

  function ColourLength(colour: Colour): nat
  {
    match colour
    case Red => 4
    case Blue => 5
    case Green => 6
  }

  /** The reveal's counts: all colours start at 0, and each match sets its
      colour, so a later count for a colour overwrites an earlier one. */
  function Tally(ms: seq<(nat, Colour)>): Cubes
  {
    if ms == [] then Cubes(0, 0, 0)
    else
      var (n, colour) := ms[|ms| - 1];
      Put(Tally(ms[..|ms| - 1]), colour, n)
  }

  /** A colour's count is that of its last match, or 0 when no match names
      the colour. */
  lemma TallyLast(ms: seq<(nat, Colour)>, colour: Colour)
    ensures (forall q :: 0 <= q < |ms| ==> ms[q].1 != colour) ==> Get(Tally(ms), colour) == 0
    ensures (exists q :: 0 <= q < |ms| && ms[q].1 == colour) ==>
      exists q :: 0 <= q < |ms| && ms[q] == (Get(Tally(ms), colour), colour) && forall q' :: q < q' < |ms| ==> ms[q'].1 != colour
  {
    if forall q :: 0 <= q < |ms| ==> ms[q].1 != colour {
      TallyUnnamed(ms, colour);
    } else {
      var q := TallyNamed(ms, colour);
    }
  }

  lemma {:induction false} TallyUnnamed(ms: seq<(nat, Colour)>, colour: Colour)
    requires forall q :: 0 <= q < |ms| ==> ms[q].1 != colour
    ensures Get(Tally(ms), colour) == 0
  {
    if ms != [] {
      var init := ms[..|ms| - 1];
      assert forall q :: 0 <= q < |init| ==> init[q] == ms[q];
      TallyUnnamed(init, colour);
    }
  }

  /** The last match that names the colour sets its count. */
  lemma {:induction false} TallyNamed(ms: seq<(nat, Colour)>, colour: Colour) returns (q: nat)
    requires exists q :: 0 <= q < |ms| && ms[q].1 == colour
    ensures q < |ms| && ms[q] == (Get(Tally(ms), colour), colour)
    ensures forall q' :: q < q' < |ms| ==> ms[q'].1 != colour
  {
    var last := ms[|ms| - 1];
    var init := ms[..|ms| - 1];
    assert Tally(ms) == Put(Tally(init), last.1, last.0);
    if last.1 == colour {
      q := |ms| - 1;
    } else {
      var k :| 0 <= k < |ms| && ms[k].1 == colour;
      assert init[k] == ms[k];
      q := TallyNamed(init, colour);
      forall q' | q < q' < |ms| ensures ms[q'].1 != colour {
        if q' < |ms| - 1 {
          assert init[q'] == ms[q'];
        }
      }
    }
  }

  /** One reveal of a game. */
  function Reveal(s: string): Cubes
  {
    Tally(Findall(s, 0))
  }

  /** A game line's reveals, in order. */
  function ParseLine(line: string): seq<Cubes>
  {
    var pieces := SplitOn(line, "; ");
    seq(|pieces|, k requires 0 <= k < |pieces| => Reveal(pieces[k]))
  }

  /** The innermost loop of `game_parser`: start from all zeros and set
      each matched colour. */
  method ParseReveal(revealed: string) returns (cubes: Cubes)
    ensures cubes == Reveal(revealed)
  {
    var revealColours := Findall(revealed, 0);
    cubes := Cubes(0, 0, 0);
    for k := 0 to |revealColours|
      invariant cubes == Tally(revealColours[..k])
    {
      var count, colour := revealColours[k].0, revealColours[k].1;
      assert revealColours[..k + 1][..k] == revealColours[..k];
      cubes := Put(cubes, colour, count);
    }
    assert revealColours[..|revealColours|] == revealColours;
  }

  /** `game_parser`: game `k + 1` holds the reveals of line `k`. */
  method GameParser(lines: seq<string>) returns (games: seq<seq<Cubes>>)
    ensures |games| == |lines|
    ensures forall k :: 0 <= k < |lines| ==> games[k] == ParseLine(lines[k])
  {
    games := [];
    for gameIndex := 0 to |lines|
      invariant |games| == gameIndex
      invariant forall k :: 0 <= k < gameIndex ==> games[k] == ParseLine(lines[k])
    {
      var cubeReveals := SplitOn(lines[gameIndex], "; ");
      var game := [];
      for r := 0 to |cubeReveals|
        invariant |game| == r
        invariant forall k :: 0 <= k < r ==> game[k] == Reveal(cubeReveals[k])
      {
        var cubes := ParseReveal(cubeReveals[r]);
        game := game + [cubes];
      }
      games := games + [game];
    }
  }

  // Part one.

  /** `BAG_CONTENTS`. */
  const Bag := Cubes(12, 13, 14)

  /** `a` holds at least as many cubes of every colour as `b`. */
  predicate Covers(a: Cubes, b: Cubes)
  {
    b.red <= a.red && b.green <= a.green && b.blue <= a.blue
  }

  /** No reveal shows more cubes of a colour than the bag holds. */
  predicate Possible(game: seq<Cubes>)
  {
    forall k :: 0 <= k < |game| ==> Covers(Bag, game[k])
  }

  /** The sum of the numbers (1-based) of the possible games among the
      first `n`. */
  function PossibleIds(games: seq<seq<Cubes>>, n: nat): nat
    requires n <= |games|
  {
    if n == 0 then 0 else PossibleIds(games, n - 1) + (if Possible(games[n - 1]) then n else 0)
  }

  /** The flag loop of part one: a game stops being possible at its first
      reveal that shows too many cubes. */
  method IsPossible(game: seq<Cubes>) returns (possible: bool)
    ensures possible <==> Possible(game)
  {
    possible := true;
    for k := 0 to |game|
      invariant possible && forall j :: 0 <= j < k ==> Covers(Bag, game[j])
    {
      var revealed := game[k];
      if revealed.red > Bag.red || revealed.blue > Bag.blue || revealed.green > Bag.green {
        possible := false;
        break;
      }
    }
  }

  /** Part one: the sum of the numbers of the possible games. */
  method SumPossibleGameIds(games: seq<seq<Cubes>>) returns (sum: nat)
    ensures sum == PossibleIds(games, |games|)
  {
    sum := 0;
    for k := 0 to |games|
      invariant sum == PossibleIds(games, k)
    {
      var gameIsPossible := IsPossible(games[k]);
      if gameIsPossible {
        sum := sum + (k + 1);
      }
    }
  }

  /** The possible games' numbers never add up to more than all numbers. */
  lemma {:induction false} PossibleIdsBound(games: seq<seq<Cubes>>, n: nat)
    requires n <= |games|
    ensures 2 * PossibleIds(games, n) <= n * (n + 1)
    ensures (forall k :: 0 <= k < n ==> Possible(games[k])) ==> 2 * PossibleIds(games, n) == n * (n + 1)
  {
    if n > 0 {
      PossibleIdsBound(games, n - 1);
    }
  }

  // Part two.

  /** The componentwise maximum of the reveals, starting from zero. */
  function Minimum(game: seq<Cubes>): Cubes
  {
    if game == [] then Cubes(0, 0, 0)
    else
      var m := Minimum(game[..|game| - 1]);
      var r := game[|game| - 1];
      Cubes(if r.red > m.red then r.red else m.red,
            if r.green > m.green then r.green else m.green,
            if r.blue > m.blue then r.blue else m.blue)
  }

  /** `Minimum` is the smallest bag that allows the game: it covers every
      reveal, and every bag that covers every reveal covers it. */
  lemma {:induction false} MinimumIsLeast(game: seq<Cubes>, bag: Cubes)
    ensures forall k :: 0 <= k < |game| ==> Covers(Minimum(game), game[k])
    ensures (forall k :: 0 <= k < |game| ==> Covers(bag, game[k])) <==> Covers(bag, Minimum(game))
  {
    if game != [] {
      var init := game[..|game| - 1];
      MinimumIsLeast(init, bag);
      assert forall k :: 0 <= k < |init| ==> init[k] == game[k];
    }
  }

  /** Each count of the smallest bag is 0 or shown by some reveal. */
  lemma {:induction false} MinimumShown(game: seq<Cubes>, colour: Colour)
    ensures Get(Minimum(game), colour) == 0 || exists k :: 0 <= k < |game| && Get(game[k], colour) == Get(Minimum(game), colour)
  {
    if game != [] {
      var init := game[..|game| - 1];
      MinimumShown(init, colour);
      if Get(Minimum(game), colour) != Get(game[|game| - 1], colour) && Get(Minimum(game), colour) != 0 {
        var k :| 0 <= k < |init| && Get(init[k], colour) == Get(Minimum(init), colour);
        assert game[k] == init[k];
      }
    }
  }

  /** Parts one and two agree: a game is possible exactly when its
      smallest bag fits in the bag of part one. */
  lemma PossibleIffMinimumFits(game: seq<Cubes>)
    ensures Possible(game) <==> Covers(Bag, Minimum(game))
  {
    MinimumIsLeast(game, Bag);
  }

  function Power(c: Cubes): nat
  {
    c.red * c.green * c.blue
  }

  /** `game_power`: keeps the largest count of each colour seen so far,
      then multiplies them. */
  method GamePower(game: seq<Cubes>) returns (power: nat)
    ensures power == Power(Minimum(game))
  {
    var cubeMinimums := Cubes(0, 0, 0);
    for k := 0 to |game|
      invariant cubeMinimums == Minimum(game[..k])
    {
      var revealed := game[k];
      assert game[..k + 1][..k] == game[..k];
      for c := 0 to 3
        invariant forall j :: 0 <= j < 3 ==>
          Get(cubeMinimums, Colours[j]) == (if j < c && Get(revealed, Colours[j]) > Get(Minimum(game[..k]), Colours[j]) then Get(revealed, Colours[j])
           else Get(Minimum(game[..k]), Colours[j]))
      {
        var colour := Colours[c];
        if Get(revealed, colour) > Get(cubeMinimums, colour) {
          cubeMinimums := Put(cubeMinimums, colour, Get(revealed, colour));
        }
      }
      assert Get(cubeMinimums, Colours[0]) == Minimum(game[..k + 1]).red;
      assert Get(cubeMinimums, Colours[1]) == Minimum(game[..k + 1]).green;
      assert Get(cubeMinimums, Colours[2]) == Minimum(game[..k + 1]).blue;
    }
    assert game[..|game|] == game;
    power := Power(cubeMinimums);
  }

  /** The order of the colour loop: red, green, blue. */
  const Colours: seq<Colour> := [Red, Green, Blue]

  /** No reveal of the game shows the colour. */
  predicate Never(game: seq<Cubes>, colour: Colour)
  {
    forall k :: 0 <= k < |game| ==> Get(game[k], colour) == 0
  }

  /** The fewest cubes of a colour are 0 exactly when no reveal shows
      that colour. */
  lemma MinimumZero(game: seq<Cubes>, colour: Colour)
    ensures Get(Minimum(game), colour) == 0 <==> Never(game, colour)
  {
    MinimumIsLeast(game, Cubes(0, 0, 0));
    MinimumShown(game, colour);
    if Get(Minimum(game), colour) == 0 {
      forall k | 0 <= k < |game|
        ensures Get(game[k], colour) == 0
      {
        assert Covers(Minimum(game), game[k]);
      }
    }
  }

  /** The power is 0 exactly when some colour is never revealed. */
  lemma PowerZero(game: seq<Cubes>)
    ensures Power(Minimum(game)) == 0 <==> Never(game, Red) || Never(game, Green) || Never(game, Blue)
  {
    var m := Minimum(game);
    MinimumZero(game, Red);
    MinimumZero(game, Green);
    MinimumZero(game, Blue);
    if m.red != 0 && m.green != 0 && m.blue != 0 {
      assert m.red * m.green >= 1 by { ProductPositive(m.red, m.green); }
      ProductPositive(m.red * m.green, m.blue);
    }
  }

  lemma ProductPositive(x: nat, y: nat)
    requires x >= 1 && y >= 1
    ensures x * y >= 1
  {
  }

  /** The sum of the games' powers. */
  function PowerSum(games: seq<seq<Cubes>>): nat
  {
    if games == [] then 0 else PowerSum(games[..|games| - 1]) + Power(Minimum(games[|games| - 1]))
  }

  /** Part two: adds up the games' powers. */
  method SumOfGamePowers(games: seq<seq<Cubes>>) returns (sum: nat)
    ensures sum == PowerSum(games)
  {
    sum := 0;
    for k := 0 to |games|
      invariant sum == PowerSum(games[..k])
    {
      var gamePowerValue := GamePower(games[k]);
      assert games[..k + 1][..k] == games[..k];
      sum := sum + gamePowerValue;
    }
    assert games[..|games|] == games;
  }

  // The example.

  /** The five example games, as their reveals. */
  function SampleGames(): seq<seq<Cubes>>
  {
    [ [Cubes(4, 0, 3), Cubes(1, 2, 6), Cubes(0, 2, 0)],
      [Cubes(0, 2, 1), Cubes(1, 3, 4), Cubes(0, 1, 1)],
      [Cubes(20, 8, 6), Cubes(4, 13, 5), Cubes(1, 5, 0)],
      [Cubes(3, 1, 6), Cubes(6, 3, 0), Cubes(14, 3, 15)],
      [Cubes(6, 3, 1), Cubes(1, 2, 2)] ]
  }

  /** Games 1, 2 and 5 are possible: 8. */
  lemma SamplePossible()
    ensures PossibleIds(SampleGames(), 5) == 8
  {
    var g := SampleGames();
    assert Possible(g[0]) && Possible(g[1]) && Possible(g[4]);
    assert !Covers(Bag, g[2][0]) && !Covers(Bag, g[3][2]);
  }

  lemma SampleMinimum0()
    ensures Minimum(SampleGames()[0]) == Cubes(4, 2, 6)
  {
    var g := SampleGames()[0];
    assert g == [Cubes(4, 0, 3), Cubes(1, 2, 6), Cubes(0, 2, 0)];
    assert g[..1][..0] == [];
    assert Minimum(g[..1]) == Cubes(4, 0, 3);
    assert g[..2][..1] == g[..1];
    assert Minimum(g[..2]) == Cubes(4, 2, 6);
    assert g[..3][..2] == g[..2];
    assert Minimum(g[..3]) == Cubes(4, 2, 6);
    assert g[..3] == g;
  }

  lemma SampleMinimum1()
    ensures Minimum(SampleGames()[1]) == Cubes(1, 3, 4)
  {
    var g := SampleGames()[1];
    assert g == [Cubes(0, 2, 1), Cubes(1, 3, 4), Cubes(0, 1, 1)];
    assert g[..1][..0] == [];
    assert Minimum(g[..1]) == Cubes(0, 2, 1);
    assert g[..2][..1] == g[..1];
    assert Minimum(g[..2]) == Cubes(1, 3, 4);
    assert g[..3][..2] == g[..2];
    assert Minimum(g[..3]) == Cubes(1, 3, 4);
    assert g[..3] == g;
  }

  lemma SampleMinimum2()
    ensures Minimum(SampleGames()[2]) == Cubes(20, 13, 6)
  {
    var g := SampleGames()[2];
    assert g == [Cubes(20, 8, 6), Cubes(4, 13, 5), Cubes(1, 5, 0)];
    assert g[..1][..0] == [];
    assert Minimum(g[..1]) == Cubes(20, 8, 6);
    assert g[..2][..1] == g[..1];
    assert Minimum(g[..2]) == Cubes(20, 13, 6);
    assert g[..3][..2] == g[..2];
    assert Minimum(g[..3]) == Cubes(20, 13, 6);
    assert g[..3] == g;
  }

  lemma SampleMinimum3()
    ensures Minimum(SampleGames()[3]) == Cubes(14, 3, 15)
  {
    var g := SampleGames()[3];
    assert g == [Cubes(3, 1, 6), Cubes(6, 3, 0), Cubes(14, 3, 15)];
    assert g[..1][..0] == [];
    assert Minimum(g[..1]) == Cubes(3, 1, 6);
    assert g[..2][..1] == g[..1];
    assert Minimum(g[..2]) == Cubes(6, 3, 6);
    assert g[..3][..2] == g[..2];
    assert Minimum(g[..3]) == Cubes(14, 3, 15);
    assert g[..3] == g;
  }

  lemma SampleMinimum4()
    ensures Minimum(SampleGames()[4]) == Cubes(6, 3, 2)
  {
    var g := SampleGames()[4];
    assert g == [Cubes(6, 3, 1), Cubes(1, 2, 2)];
    assert g[..1][..0] == [];
    assert Minimum(g[..1]) == Cubes(6, 3, 1);
    assert g[..2][..1] == g[..1];
    assert Minimum(g[..2]) == Cubes(6, 3, 2);
    assert g[..2] == g;
  }

  /** The powers 48, 12, 1560, 630 and 36 add up to 2286. */
  lemma SamplePowers()
    ensures PowerSum(SampleGames()) == 2286
  {
    SampleMinimum0(); SampleMinimum1(); SampleMinimum2(); SampleMinimum3(); SampleMinimum4();
    var g := SampleGames();
    assert g[..1][..0] == [];
    assert PowerSum(g[..1]) == 48;
    assert g[..2][..1] == g[..1];
    assert PowerSum(g[..2]) == 60;
    assert g[..3][..2] == g[..2];
    assert PowerSum(g[..3]) == 1620;
    assert g[..4][..3] == g[..3];
    assert PowerSum(g[..4]) == 2250;
    assert g[..5][..4] == g[..4];
    assert PowerSum(g[..5]) == 2286;
    assert g[..5] == g;
  }

  /** The first reveal of the example, `3 blue, 4 red`: 4 red, no green,
      3 blue. */
  lemma SampleReveal() ensures Reveal("3 blue, 4 red") == Cubes(4, 0, 3) {
    RevealBlueRed("3 blue, 4 red");
  }

  lemma RevealBlueRed(s: string)
    requires s == "3 blue, 4 red"
    ensures Reveal(s) == Cubes(4, 0, 3)
  {
    assert RunEnd(s, 0) == 1 by { assert RunEnd(s, 1) == 1; }
    assert s[1..] == " blue, 4 red";
    assert !(" red" <= s[1..]) by { assert s[1..][1] == 'b'; }
    assert " blue" <= s[1..];
    assert ColourAt(s, 1) == Some((Blue, 5));
    assert s[0..1] == "3";
    assert DigitsValue("3") == 3;
    assert MatchFrom(s, 0) == Some(((3, Blue), 6));
    assert RunEnd(s, 8) == 9 by { assert RunEnd(s, 9) == 9; }
    assert s[9..] == " red";
    assert ColourAt(s, 9) == Some((Red, 4));
    assert s[8..9] == "4";
    assert DigitsValue("4") == 4;
    assert MatchFrom(s, 8) == Some(((4, Red), 13));
    assert MatchFrom(s, 6).None? && MatchFrom(s, 7).None?;
    assert Findall(s, 13) == [];
    assert Findall(s, 8) == [(4, Red)];
    assert Findall(s, 6) == [(4, Red)];
    assert Findall(s, 0) == [(3, Blue), (4, Red)];
    var ms: seq<(nat, Colour)> := [(3, Blue), (4, Red)];
    assert ms[..1] == [(3, Blue)] && ms[..1][..0] == [];
    assert Tally(ms[..1]) == Cubes(0, 0, 3);
    assert Tally(ms) == Cubes(4, 0, 3);
  }
}
