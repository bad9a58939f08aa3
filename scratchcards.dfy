/** Day 4, part two: scratchcards. A card's score is how many of "your
    numbers" are winning numbers; every instance of card `i` with score `s`
    wins one more instance of each of the next `s` cards. */
module Scratchcards {
  import opened Wrappers
  import opened Arith

  /** The winning numbers and "your numbers" of one card. */
  datatype Card = Card(winning: seq<int>, yours: seq<int>)

  /** How many of `yours` occur in `winning`, duplicates in `yours`
      counted each time. */
  function Matches(winning: seq<int>, yours: seq<int>): nat
  {
    if yours == [] then 0
    else (if yours[0] in winning then 1 else 0) + Matches(winning, yours[1..])
  }

  /** The score is at most the count of your numbers; it equals it exactly
      when all of them win, and is zero exactly when none does. */
  lemma {:induction false} MatchesRange(winning: seq<int>, yours: seq<int>)
    ensures Matches(winning, yours) <= |yours|
    ensures Matches(winning, yours) == |yours| <==> forall k :: 0 <= k < |yours| ==> yours[k] in winning
    ensures Matches(winning, yours) == 0 <==> forall k :: 0 <= k < |yours| ==> yours[k] !in winning
  {
    if yours != [] {
      var rest := yours[1..];
      MatchesRange(winning, rest);
      assert forall k :: 0 <= k < |rest| ==> rest[k] == yours[k + 1];
    }
  }

  /** `get_card_score`: the number of your numbers that win. */
  function Score(card: Card): nat
  {
    Matches(card.winning, card.yours)
  }

  /** The counting loop of `get_card_score`. */
  method GetCardScore(card: Card) returns (matches: nat)
    ensures matches == Score(card)
  {
    matches := 0;
    for k := 0 to |card.yours|
      invariant matches + Matches(card.winning, card.yours[k..]) == Score(card)
    {
      assert card.yours[k..][1..] == card.yours[k + 1..];
      if card.yours[k] in card.winning {
        matches := matches + 1;
      }
    }
  }

  // The number of instances of each card.

  /** Instances of card `j`: the original plus what the earlier cards won. */
  function Copies(cards: seq<Card>, j: nat): nat
    requires j < |cards|
    decreases j, 1
  {
    1 + Won(cards, j, j)
  }

  /** The instances of card `j` won by cards `0 .. k - 1`: each instance of
      card `i` wins one copy of card `j` when `j` is among the next
      `Score(cards[i])` cards. */
  function Won(cards: seq<Card>, k: nat, j: nat): nat
    requires k <= j < |cards|
    decreases k, 0
  {
    if k == 0 then 0
    else Won(cards, k - 1, j) + (if j <= k - 1 + Score(cards[k - 1]) then Copies(cards, k - 1) else 0)
  }

  /** No card wins a copy past the end of the table; otherwise the
      dictionary lookup fails with a `KeyError`. */
  predicate Fits(cards: seq<Card>)
  {
    forall i :: 0 <= i < |cards| ==> i + Score(cards[i]) < |cards|
  }

  /** Card `j` never has more than `2^j` instances: each earlier card
      contributes at most its own count. */
  lemma {:induction false} CopiesBound(cards: seq<Card>, j: nat)
    requires j < |cards|
    ensures 1 <= Copies(cards, j) <= Pow2(j)
    decreases j, 1
  {
    WonBound(cards, j, j);
  }

  lemma {:induction false} WonBound(cards: seq<Card>, k: nat, j: nat)
    requires k <= j < |cards|
    ensures Won(cards, k, j) <= Pow2(k) - 1
    decreases k, 0
  {
    if k > 0 {
      WonBound(cards, k - 1, j);
      CopiesBound(cards, k - 1);
    }
  }

  function Pow2(n: nat): (p: nat)
    ensures p >= 1
  {
    if n == 0 then 1 else 2 * Pow2(n - 1)
  }

  /** `counts` holds card `j`'s original plus what cards `0 .. k - 1`
      won for it. */
  ghost predicate Settled(cards: seq<Card>, counts: seq<nat>, k: nat)
  {
    |counts| == |cards| && forall j :: 0 <= j < |cards| ==> counts[j] == 1 + Won(cards, Min(k, j), j)
  }

  /** Card `id` has already given its copies to the first `i` of the
      cards after it. */
  ghost predicate Adding(cards: seq<Card>, counts: seq<nat>, id: nat, i: nat)
  {
    |counts| == |cards| &&
    forall j :: 0 <= j < |cards| ==> counts[j] == 1 + Won(cards, if id < j <= id + i then id + 1 else Min(id, j), j)
  }

  /** One more card won: card `id`'s copies reach card `id + i + 1`. */
  lemma AddingStep(cards: seq<Card>, counts: seq<nat>, id: nat, i: nat)
    requires id + i + 1 < |cards| && i < Score(cards[id]) && Adding(cards, counts, id, i)
    requires counts[id] == Copies(cards, id)
    ensures Adding(cards, counts[id + i + 1 := counts[id + i + 1] + counts[id]], id, i + 1)
  {
    var j := id + i + 1;
    assert Won(cards, id + 1, j) == Won(cards, id, j) + Copies(cards, id);
  }

  /** Once card `id` has given all its copies, cards `0 .. id` are done. */
  lemma AddingDone(cards: seq<Card>, counts: seq<nat>, id: nat)
    requires id < |cards| && Adding(cards, counts, id, Score(cards[id]))
    ensures Settled(cards, counts, id + 1)
  {
    forall j | 0 <= j < |cards|
      ensures counts[j] == 1 + Won(cards, Min(id + 1, j), j)
    {
      if id < j {
        assert Won(cards, id + 1, j) == Won(cards, id, j) + (if j <= id + Score(cards[id]) then Copies(cards, id) else 0);
      }
    }
  }

  /** The inner loop of the main program: card `id`, held `counts[id]`
      times, adds that count to each of the next `score` cards. It reports
      `false` for the `KeyError` of a copy past the end of the table. */
  method AddCopies(cards: seq<Card>, cardCounts: array<nat>, id: nat, score: nat) returns (ok: bool)
    requires id < |cards| && score == Score(cards[id]) && Settled(cards, cardCounts[..], id)
    modifies cardCounts
    ensures ok <==> id + score < |cards|
    ensures ok ==> Settled(cards, cardCounts[..], id + 1)
  {
    assert cardCounts[..][id] == 1 + Won(cards, Min(id, id), id);
    assert Adding(cards, cardCounts[..], id, 0);
    for i := 0 to score
      invariant cardCounts[id] == Copies(cards, id)
      invariant Adding(cards, cardCounts[..], id, i)
    {
      if id + i + 1 >= cardCounts.Length {
        return false;
      }
      AddingStep(cards, cardCounts[..], id, i);
      cardCounts[id + i + 1] := cardCounts[id + i + 1] + cardCounts[id];
    }
    AddingDone(cards, cardCounts[..], id);
    return id + score < cardCounts.Length;
  }

  /** The propagation loop of the main program. `card_counts` is an array
      indexed by card, every count starting at 1. `None` stands for the
      `KeyError` of a copy past the end of the table. */
  method CountCards(cards: seq<Card>) returns (counts: Option<seq<nat>>)
    ensures counts.Some? <==> Fits(cards)
    ensures counts.Some? ==> (|counts.value| == |cards| &&
      forall j :: 0 <= j < |cards| ==> counts.value[j] == Copies(cards, j))
  {
    var n := |cards|;
    var cardCounts := new nat[n](_ => 1);
    assert Settled(cards, cardCounts[..], 0);
    for id := 0 to n
      invariant Settled(cards, cardCounts[..], id)
      invariant forall i :: 0 <= i < id ==> i + Score(cards[i]) < n
    {
      var score := GetCardScore(cards[id]);
      var ok := AddCopies(cards, cardCounts, id, score);
      if !ok {
        return None;
      }
    }
    forall j | 0 <= j < n
      ensures cardCounts[j] == Copies(cards, j)
    {
      assert Min(n, j) == j;
    }
    counts := Some(cardCounts[..]);
  }

  /** `sum(card_counts.values())`: the total number of scratchcards, or
      `None` when some card wins past the end of the table. */
  method TotalScratchcards(cards: seq<Card>) returns (total: Option<nat>)
    ensures total.Some? <==> Fits(cards)
    ensures total.Some? ==> total.value == Sum(AllCopies(cards, |cards|))
  {
    var counts := CountCards(cards);
    if counts.None? {
      return None;
    }
    var c := counts.value;
    var sum := 0;
    for k := 0 to |c|
      invariant sum == Sum(c[..k])
    {
      assert c[..k + 1][..k] == c[..k];
      sum := sum + c[k];
    }
    assert c[..|c|] == c;
    AllCopiesAt(cards, |cards|);
    assert c == AllCopies(cards, |cards|);
    total := Some(sum);
  }

  /** The counts of cards `0 .. n - 1`. */
  function AllCopies(cards: seq<Card>, n: nat): seq<int>
    requires n <= |cards|
  {
    if n == 0 then [] else AllCopies(cards, n - 1) + [Copies(cards, n - 1)]
  }

  lemma {:induction false} AllCopiesAt(cards: seq<Card>, n: nat)
    requires n <= |cards|
    ensures |AllCopies(cards, n)| == n && forall j :: 0 <= j < n ==> AllCopies(cards, n)[j] == Copies(cards, j)
  {
    if n > 0 {
      AllCopiesAt(cards, n - 1);
    }
  }

  /** The six cards of the puzzle's example. */
  function SampleCards(): seq<Card>
  {
    [ Card([41, 48, 83, 86, 17], [83, 86, 6, 31, 17, 9, 48, 53]),
      Card([13, 32, 20, 16, 61], [61, 30, 68, 82, 17, 32, 24, 19]),
      Card([1, 21, 53, 59, 44], [69, 82, 63, 72, 16, 21, 14, 1]),
      Card([41, 92, 73, 84, 69], [59, 84, 76, 51, 58, 5, 54, 83]),
      Card([87, 83, 26, 28, 32], [88, 30, 70, 12, 93, 22, 82, 36]),
      Card([31, 18, 13, 56, 72], [74, 77, 10, 23, 35, 67, 36, 11]) ]
  }

  /** `Matches` on the suffix of `yours` from `k`, counted by index. */
  function MatchesFrom(winning: seq<int>, yours: seq<int>, k: nat): nat
    decreases |yours| - k
  {
    if k >= |yours| then 0 else (if yours[k] in winning then 1 else 0) + MatchesFrom(winning, yours, k + 1)
  }

  lemma {:induction false} MatchesFromSuffix(winning: seq<int>, yours: seq<int>, k: nat)
    requires k <= |yours|
    ensures MatchesFrom(winning, yours, k) == Matches(winning, yours[k..])
    decreases |yours| - k
  {
    if k < |yours| {
      assert yours[k..][1..] == yours[k + 1..];
      MatchesFromSuffix(winning, yours, k + 1);
    }
  }

  lemma CardScore0(winning: seq<int>, yours: seq<int>)
    requires winning == [41, 48, 83, 86, 17] && yours == [83, 86, 6, 31, 17, 9, 48, 53]
    ensures Matches(winning, yours) == 4
  {
    assert MatchesFrom([41, 48, 83, 86, 17], [83, 86, 6, 31, 17, 9, 48, 53], 0) == 4;
    MatchesFromSuffix(winning, yours, 0);
    assert yours[0..] == yours;
  }

  lemma CardScore1(winning: seq<int>, yours: seq<int>)
    requires winning == [13, 32, 20, 16, 61] && yours == [61, 30, 68, 82, 17, 32, 24, 19]
    ensures Matches(winning, yours) == 2
  {
    assert MatchesFrom([13, 32, 20, 16, 61], [61, 30, 68, 82, 17, 32, 24, 19], 0) == 2;
    MatchesFromSuffix(winning, yours, 0);
    assert yours[0..] == yours;
  }

  lemma CardScore2(winning: seq<int>, yours: seq<int>)
    requires winning == [1, 21, 53, 59, 44] && yours == [69, 82, 63, 72, 16, 21, 14, 1]
    ensures Matches(winning, yours) == 2
  {
    assert MatchesFrom([1, 21, 53, 59, 44], [69, 82, 63, 72, 16, 21, 14, 1], 0) == 2;
    MatchesFromSuffix(winning, yours, 0);
    assert yours[0..] == yours;
  }

  lemma CardScore3(winning: seq<int>, yours: seq<int>)
    requires winning == [41, 92, 73, 84, 69] && yours == [59, 84, 76, 51, 58, 5, 54, 83]
    ensures Matches(winning, yours) == 1
  {
    assert MatchesFrom([41, 92, 73, 84, 69], [59, 84, 76, 51, 58, 5, 54, 83], 0) == 1;
    MatchesFromSuffix(winning, yours, 0);
    assert yours[0..] == yours;
  }

  lemma CardScore4(winning: seq<int>, yours: seq<int>)
    requires winning == [87, 83, 26, 28, 32] && yours == [88, 30, 70, 12, 93, 22, 82, 36]
    ensures Matches(winning, yours) == 0
  {
    assert MatchesFrom([87, 83, 26, 28, 32], [88, 30, 70, 12, 93, 22, 82, 36], 0) == 0;
    MatchesFromSuffix(winning, yours, 0);
    assert yours[0..] == yours;
  }

  lemma CardScore5(winning: seq<int>, yours: seq<int>)
    requires winning == [31, 18, 13, 56, 72] && yours == [74, 77, 10, 23, 35, 67, 36, 11]
    ensures Matches(winning, yours) == 0
  {
    assert MatchesFrom([31, 18, 13, 56, 72], [74, 77, 10, 23, 35, 67, 36, 11], 0) == 0;
    MatchesFromSuffix(winning, yours, 0);
    assert yours[0..] == yours;
  }

  lemma SampleCardsAre()
    ensures SampleCards() == [
      Card([41, 48, 83, 86, 17], [83, 86, 6, 31, 17, 9, 48, 53]),
      Card([13, 32, 20, 16, 61], [61, 30, 68, 82, 17, 32, 24, 19]),
      Card([1, 21, 53, 59, 44], [69, 82, 63, 72, 16, 21, 14, 1]),
      Card([41, 92, 73, 84, 69], [59, 84, 76, 51, 58, 5, 54, 83]),
      Card([87, 83, 26, 28, 32], [88, 30, 70, 12, 93, 22, 82, 36]),
      Card([31, 18, 13, 56, 72], [74, 77, 10, 23, 35, 67, 36, 11])]
  {
  }

  lemma SampleScore0()
    ensures Score(SampleCards()[0]) == 4
  {
    CardScore0(SampleCards()[0].winning, SampleCards()[0].yours);
    SampleCardsAre();
  }

  lemma SampleScore1()
    ensures Score(SampleCards()[1]) == 2
  {
    CardScore1(SampleCards()[1].winning, SampleCards()[1].yours);
    SampleCardsAre();
  }

  lemma SampleScore2()
    ensures Score(SampleCards()[2]) == 2
  {
    CardScore2(SampleCards()[2].winning, SampleCards()[2].yours);
    SampleCardsAre();
  }

  lemma SampleScore3()
    ensures Score(SampleCards()[3]) == 1
  {
    CardScore3(SampleCards()[3].winning, SampleCards()[3].yours);
    SampleCardsAre();
  }

  lemma SampleScore4()
    ensures Score(SampleCards()[4]) == 0
  {
    CardScore4(SampleCards()[4].winning, SampleCards()[4].yours);
    SampleCardsAre();
  }

  lemma SampleScore5()
    ensures Score(SampleCards()[5]) == 0
  {
    CardScore5(SampleCards()[5].winning, SampleCards()[5].yours);
    SampleCardsAre();
  }

  /** The example's scores are 4, 2, 2, 1, 0 and 0. */
  lemma SampleScores()
    ensures |SampleCards()| == 6
    ensures Score(SampleCards()[0]) == 4 && Score(SampleCards()[1]) == 2 && Score(SampleCards()[2]) == 2
    ensures Score(SampleCards()[3]) == 1 && Score(SampleCards()[4]) == 0 && Score(SampleCards()[5]) == 0
  {
    SampleScore0(); SampleScore1(); SampleScore2(); SampleScore3(); SampleScore4(); SampleScore5();
  }

  /** Six cards scoring 4, 2, 2, 1, 0, 0 end with 1, 2, 4, 8, 14 and 1
      instances. */
  lemma SampleCopies(cards: seq<Card>)
    requires |cards| == 6
    requires Score(cards[0]) == 4 && Score(cards[1]) == 2 && Score(cards[2]) == 2
    requires Score(cards[3]) == 1 && Score(cards[4]) == 0 && Score(cards[5]) == 0
    ensures Fits(cards)
    ensures AllCopies(cards, 6) == [1, 2, 4, 8, 14, 1]
  {
    assert Copies(cards, 0) == 1;
    assert Won(cards, 1, 1) == 1;
    assert Copies(cards, 1) == 2;
    assert Won(cards, 2, 2) == 3;
    assert Copies(cards, 2) == 4;
    assert Won(cards, 2, 3) == 3;
    assert Won(cards, 3, 3) == 7;
    assert Copies(cards, 3) == 8;
    assert Won(cards, 2, 4) == 1;
    assert Won(cards, 3, 4) == 5;
    assert Won(cards, 4, 4) == 13;
    assert Copies(cards, 4) == 14;
    assert Won(cards, 3, 5) == 0;
    assert Won(cards, 5, 5) == 0;
    assert Copies(cards, 5) == 1;
    AllCopiesAt(cards, 6);
  }

  /** The example totals 30 scratchcards. */
  lemma SampleTotal()
    ensures Fits(SampleCards())
    ensures AllCopies(SampleCards(), 6) == [1, 2, 4, 8, 14, 1]
    ensures Sum(AllCopies(SampleCards(), 6)) == 30
  {
    SampleScores();
    SampleCopies(SampleCards());
    CountsSum();
  }

  lemma CountsSum()
    ensures Sum([1, 2, 4, 8, 14, 1]) == 30
  {
    assert Sum([1]) == 1;
    assert Sum([1, 2]) == 3;
    assert Sum([1, 2, 4]) == 7;
    assert [1, 2, 4, 8][..3] == [1, 2, 4];
    assert Sum([1, 2, 4, 8]) == 15;
    assert [1, 2, 4, 8, 14][..4] == [1, 2, 4, 8];
    assert Sum([1, 2, 4, 8, 14]) == 29;
    assert [1, 2, 4, 8, 14, 1][..5] == [1, 2, 4, 8, 14];
    assert Sum([1, 2, 4, 8, 14, 1]) == 30;
  }
}
