/** Day 7, part two (D7/d7p2.py): Camel Cards with jokers. `J` is wild
    when a hand is classified and the weakest card when ties are broken;
    the key packing and the winnings are those of part one. */
module JokerCards {

  import opened Wrappers
  import opened Text
  import opened CamelCards

  /** `card_ranker`: as in part one, except that `J` ranks 0. */
  function JokerRank(c: char): (r: Option<nat>)
    ensures c == 'J' ==> r == Some(0)
    ensures c != 'J' ==> r == CardRank(c)
    ensures r.Some? ==> r.value <= 14
    ensures c !in "J0" && r.Some? ==> r.value > 0
  {
    if c == 'J' then Some(0) else CardRank(c)
  }

  /** Some label of `h` occurs exactly `n` times. */
  predicate HasCount(h: string, n: nat)
  {
    exists c :: c in h && Occurrences(h, c) == n
  }

  predicate JokerFive(h: string)
  {
    FiveOfAKind(h)
    || (HasCount(h, 4) && 'J' in h)
    || (HasCount(h, 2) && Occurrences(h, 'J') == 3)
    || (HasCount(h, 3) && Occurrences(h, 'J') == 2)
  }

  predicate JokerFour(h: string)
  {
    FourOfAKind(h)
    || (HasCount(h, 3) && 'J' in h)
    || (HasCount(h, 2) && Occurrences(h, 'J') == 2 && |set c | c in h| == 3)
    || Occurrences(h, 'J') == 3
  }

  predicate JokerFullHouse(h: string)
  {
    (HasCount(h, 3) && HasCount(h, 2)) || (|Pairs(h)| == 2 && 'J' in h)
  }

  predicate JokerThree(h: string)
  {
    ThreeOfAKind(h) || (HasCount(h, 2) && 'J' in h) || Occurrences(h, 'J') == 2
  }

  predicate JokerOnePair(h: string)
  {
    OnePair(h) || 'J' in h
  }

  /** The type digit, first match strongest first; two pair is unchanged
      from part one. */
  function JokerTypeOf(h: string): (t: nat)
    ensures 1 <= t <= 7
    ensures t == 7 <==> JokerFive(h)
    ensures 'J' in h ==> t >= 2
  {
    if JokerFive(h) then 7
    else if JokerFour(h) then 6
    else if JokerFullHouse(h) then 5
    else if JokerThree(h) then 4
    else if TwoPair(h) then 3
    else if JokerOnePair(h) then 2
    else 1
  }

  /** `any(... for c in set(hand))` and `any(... for c in hand)` agree. */
  lemma HasCountAtSomeIndex(h: string, n: nat)
    ensures HasCount(h, n) <==> exists i :: 0 <= i < |h| && Occurrences(h, h[i]) == n
  {
    if HasCount(h, n) {
      var c :| c in h && Occurrences(h, c) == n;
      var i :| 0 <= i < |h| && h[i] == c;
    }
  }

  /** The joker rule never makes a hand weaker than part one's rule. */
  lemma JokersNeverWeaken(h: string)
    ensures JokerTypeOf(h) >= TypeOf(h)
  {
    HasCountAtSomeIndex(h, 4);
    HasCountAtSomeIndex(h, 3);
    HasCountAtSomeIndex(h, 2);
  }

  /** Without a `J` both rules classify alike. */
  lemma NoJokerSameType(h: string)
    requires 'J' !in h
    ensures JokerTypeOf(h) == TypeOf(h)
  {
    HasCountAtSomeIndex(h, 4);
    HasCountAtSomeIndex(h, 3);
    HasCountAtSomeIndex(h, 2);
    assert Occurrences(h, 'J') == 0 by {
      if Occurrences(h, 'J') > 0 {
        OccurrencesIn(h, 'J');
      }
    }
  }

  /** The key of a hand under the joker rules. */
  function JokerHandKey(h: string): Option<nat>
  {
    match Ranks(h, JokerRank)
    case None => None
    case Some(rs) => Some(Key(JokerTypeOf(h), rs))
  }

  /** `hand_ranker` of part two. */
  method JokerHandRanker(h: string) returns (key: Option<nat>)
    ensures key == JokerHandKey(h)
  {
    var value := JokerTypeOf(h) * 0x100000;
    ghost var ranks: seq<nat> := [];
    for i := 0 to |h|
      invariant Ranks(h[..i], JokerRank) == Some(ranks)
      invariant value == Key(JokerTypeOf(h), ranks)
    {
      assert h[..i + 1][..i] == h[..i];
      var r := JokerRank(h[i]);
      if r.None? {
        assert !JokerRank(h[..i + 1][i]).Some?;
        RanksPrefixNone(h, i + 1, JokerRank);
        return None;
      }
      value := value + r.value * Weight(i);
      ranks := ranks + [r.value];
    }
    assert h[..|h|] == h;
    key := Some(value);
  }

  /** A stronger joker type outranks any weaker one. */
  lemma JokerTypeOutranks(h1: string, h2: string)
    requires JokerHandKey(h1).Some? && JokerHandKey(h2).Some? && JokerTypeOf(h1) > JokerTypeOf(h2)
    ensures JokerHandKey(h1).value > JokerHandKey(h2).value
  {
    RanksAreHexDigits(h1, JokerRank);
    RanksAreHexDigits(h2, JokerRank);
    TypeDominates(JokerTypeOf(h1), Ranks(h1, JokerRank).value, JokerTypeOf(h2), Ranks(h2, JokerRank).value);
  }

  /** Five-card hands of one joker type are ordered card by card, `J`
      lowest. */
  lemma JokerSameTypeByCards(h1: string, h2: string)
    requires |h1| == |h2| == 5 && JokerHandKey(h1).Some? && JokerHandKey(h2).Some? && JokerTypeOf(h1) == JokerTypeOf(h2)
    requires LexBelow(Ranks(h1, JokerRank).value, Ranks(h2, JokerRank).value)
    ensures JokerHandKey(h1).value < JokerHandKey(h2).value
  {
    RanksAreHexDigits(h1, JokerRank);
    RanksAreHexDigits(h2, JokerRank);
    WithinTypeIsLexicographic(JokerTypeOf(h1), Ranks(h1, JokerRank).value, Ranks(h2, JokerRank).value);
  }
}
