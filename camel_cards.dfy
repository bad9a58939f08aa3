/** Day 7, part one (D07/d7p1.py): Camel Cards. A hand's type and its
    cards are packed into one sort key, type in the highest hex digit
    and card ranks in the five below; winnings weigh each bid by the
    hand's position in ascending key order. */
module CamelCards {

  import opened Wrappers
  import opened Text

  /** A line of input: the hand's cards and its bid, both as text. */
  datatype Hand = Hand(cards: string, bid: string)

  /** `card_ranker`: faces by name, other cards by `int()`, which fails on
      anything that is not a digit. */
  function CardRank(c: char): (r: Option<nat>)
    ensures c == 'A' ==> r == Some(14)
    ensures c == 'K' ==> r == Some(13)
    ensures c == 'Q' ==> r == Some(12)
    ensures c == 'J' ==> r == Some(11)
    ensures c == 'T' ==> r == Some(10)
    ensures '0' <= c <= '9' ==> r == Some(c as int - '0' as int)
    ensures r.Some? <==> c in "AKQJT0123456789"
    ensures r.Some? ==> r.value <= 14
  {
    if c == 'A' then Some(14)
    else if c == 'K' then Some(13)
    else if c == 'Q' then Some(12)
    else if c == 'J' then Some(11)
    else if c == 'T' then Some(10)
    else if '0' <= c <= '9' then Some(c as int - '0' as int)
    else None
  }

  predicate FiveOfAKind(h: string)
  {
    forall i :: 0 <= i < |h| ==> h[i] == h[0]
  }

  predicate FourOfAKind(h: string)
  {
    exists i :: 0 <= i < |h| && Occurrences(h, h[i]) == 4
  }

  predicate FullHouse(h: string)
  {
    (exists i :: 0 <= i < |h| && Occurrences(h, h[i]) == 3) && (exists i :: 0 <= i < |h| && Occurrences(h, h[i]) == 2)
  }

  predicate ThreeOfAKind(h: string)
  {
    exists i :: 0 <= i < |h| && Occurrences(h, h[i]) == 3
  }

  /** Exactly two distinct labels occur exactly twice. */
  predicate TwoPair(h: string)
  {
    |Pairs(h)| == 2
  }

  /** The distinct labels that occur exactly twice. */
  function Pairs(h: string): set<char>
  {
    set c | c in h && Occurrences(h, c) == 2
  }

  predicate OnePair(h: string)
  {
    exists i :: 0 <= i < |h| && Occurrences(h, h[i]) == 2
  }

  /** The type digit: the first test that holds, strongest first. */
  function TypeOf(h: string): (t: nat)
    ensures 1 <= t <= 7
    ensures t == 7 <==> FiveOfAKind(h)
    ensures t == 1 <==> !FiveOfAKind(h) && !FourOfAKind(h) && !FullHouse(h) && !ThreeOfAKind(h) && !TwoPair(h) && !OnePair(h)
  {
    if FiveOfAKind(h) then 7
    else if FourOfAKind(h) then 6
    else if FullHouse(h) then 5
    else if ThreeOfAKind(h) then 4
    else if TwoPair(h) then 3
    else if OnePair(h) then 2
    else 1
  }

  /** Some card of `h` occurs exactly `n` times (`n > 0`), said of the
      multiset of cards. */
  lemma SomeCountIsMultiset(h: string, n: nat)
    requires n > 0
    ensures (exists i :: 0 <= i < |h| && Occurrences(h, h[i]) == n) <==> (exists c :: c in multiset(h) && multiset(h)[c] == n)
  {
    if i :| 0 <= i < |h| && Occurrences(h, h[i]) == n {
      OccurrencesIsMultiplicity(h, h[i]);
    }
    if c :| c in multiset(h) && multiset(h)[c] == n {
      var i :| 0 <= i < |h| && h[i] == c;
      OccurrencesIsMultiplicity(h, c);
    }
  }

  lemma FiveIsMultiset(h: string)
    ensures FiveOfAKind(h) <==> forall c, d :: c in multiset(h) && d in multiset(h) ==> c == d
  {
    if FiveOfAKind(h) {
      forall c, d | c in multiset(h) && d in multiset(h) ensures c == d {
        var i :| 0 <= i < |h| && h[i] == c;
        var j :| 0 <= j < |h| && h[j] == d;
      }
    }
    if forall c, d :: c in multiset(h) && d in multiset(h) ==> c == d {
      forall i | 0 <= i < |h| ensures h[i] == h[0] {
        assert h[i] in multiset(h) && h[0] in multiset(h);
      }
    }
  }

  lemma PairsAreMultiset(h: string)
    ensures Pairs(h) == set c | c in multiset(h) && multiset(h)[c] == 2
  {
    forall c ensures Occurrences(h, c) == multiset(h)[c] {
      OccurrencesIsMultiplicity(h, c);
    }
  }

  /** The type depends on which cards a hand holds, not on their order. */
  lemma TypeIgnoresOrder(h1: string, h2: string)
    requires multiset(h1) == multiset(h2)
    ensures TypeOf(h1) == TypeOf(h2)
  {
    FiveIsMultiset(h1);
    FiveIsMultiset(h2);
    SomeCountIsMultiset(h1, 4);
    SomeCountIsMultiset(h2, 4);
    SomeCountIsMultiset(h1, 3);
    SomeCountIsMultiset(h2, 3);
    SomeCountIsMultiset(h1, 2);
    SomeCountIsMultiset(h2, 2);
    PairsAreMultiset(h1);
    PairsAreMultiset(h2);
    assert FiveOfAKind(h1) == FiveOfAKind(h2);
    assert FourOfAKind(h1) == FourOfAKind(h2);
    assert ThreeOfAKind(h1) == ThreeOfAKind(h2);
    assert OnePair(h1) == OnePair(h2);
    assert FullHouse(h1) == FullHouse(h2);
    assert Pairs(h1) == Pairs(h2);
  }

  function Pow16(n: nat): (p: nat)
    ensures p >= 1
  {
    if n == 0 then 1 else 16 * Pow16(n - 1)
  }

  lemma {:induction false} Pow16Add(m: nat, n: nat)
    ensures Pow16(m + n) == Pow16(m) * Pow16(n)
  {
    if m > 0 {
      Pow16Add(m - 1, n);
      assert Pow16(m + n) == 16 * Pow16(m - 1 + n);
      assert 16 * (Pow16(m - 1) * Pow16(n)) == (16 * Pow16(m - 1)) * Pow16(n);
    }
  }

  /** `0x10000 >> (4 * i)`: the weight of the card at position `i`; cards
      after the fifth weigh nothing. */
  function Weight(i: nat): nat
  {
    if i <= 4 then Pow16(4 - i) else 0
  }

  /** The card part of the key: each rank times its position's weight. */
  function CardSum(ranks: seq<nat>): nat
  {
    if ranks == [] then 0 else CardSum(ranks[..|ranks| - 1]) + ranks[|ranks| - 1] * Weight(|ranks| - 1)
  }

  /** The ranks of a hand's cards, or `None` if one has no rank. */
  function Ranks(h: string, rank: char -> Option<nat>): (r: Option<seq<nat>>)
    ensures r.Some? <==> forall i :: 0 <= i < |h| ==> rank(h[i]).Some?
    ensures r.Some? ==> |r.value| == |h| && forall i :: 0 <= i < |h| ==> r.value[i] == rank(h[i]).value
  {
    if h == [] then Some([])
    else
      var init := Ranks(h[..|h| - 1], rank);
      var last := rank(h[|h| - 1]);
      if init.None? then
        assert !rank(h[..|h| - 1][IndexOfNone(h[..|h| - 1], rank)]).Some?;
        None
      else if last.None? then None
      else Some(init.value + [last.value])
  }

  /** The first position whose card has no rank. */
  function IndexOfNone(h: string, rank: char -> Option<nat>): (i: nat)
    requires exists i :: 0 <= i < |h| && rank(h[i]).None?
    ensures i < |h| && rank(h[i]).None?
  {
    if rank(h[0]).None? then 0 else IndexOfNone(h[1..], rank) + 1
  }

  /** `hand_ranker`'s value: type digit times 0x100000 plus the card part. */
  function Key(typeDigit: nat, ranks: seq<nat>): nat
  {
    typeDigit * 0x100000 + CardSum(ranks)
  }

  /** The key of a hand under this part's rules. */
  function HandKey(h: string): Option<nat>
  {
    match Ranks(h, CardRank)
    case None => None
    case Some(rs) => Some(Key(TypeOf(h), rs))
  }

  /** `hand_ranker`: the type, then one rank per card added at its weight. */
  method HandRanker(h: string) returns (key: Option<nat>)
    ensures key == HandKey(h)
  {
    var value := TypeOf(h) * 0x100000;
    ghost var ranks: seq<nat> := [];
    for i := 0 to |h|
      invariant Ranks(h[..i], CardRank) == Some(ranks)
      invariant value == Key(TypeOf(h), ranks)
    {
      assert h[..i + 1][..i] == h[..i];
      var r := CardRank(h[i]);
      if r.None? {
        assert !CardRank(h[..i + 1][i]).Some?;
        RanksPrefixNone(h, i + 1, CardRank);
        return None;
      }
      value := value + r.value * Weight(i);
      ranks := ranks + [r.value];
    }
    assert h[..|h|] == h;
    key := Some(value);
  }

  /** A card without rank anywhere makes the whole hand unranked. */
  lemma RanksPrefixNone(h: string, k: nat, rank: char -> Option<nat>)
    requires k <= |h| && Ranks(h[..k], rank).None?
    ensures Ranks(h, rank).None?
  {
    var i :| 0 <= i < k && rank(h[..k][i]).None?;
    assert h[..k][i] == h[i];
  }

  /** Every rank fits one hex digit. */
  lemma {:induction false} RanksAreHexDigits(h: string, rank: char -> Option<nat>)
    requires forall c :: rank(c).Some? ==> rank(c).value <= 14
    requires Ranks(h, rank).Some?
    ensures HexDigits(Ranks(h, rank).value)
  {
  }

  /** A hand of a stronger type outranks any hand of a weaker one. */
  lemma TypeOutranks(h1: string, h2: string)
    requires HandKey(h1).Some? && HandKey(h2).Some? && TypeOf(h1) > TypeOf(h2)
    ensures HandKey(h1).value > HandKey(h2).value
  {
    RanksAreHexDigits(h1, CardRank);
    RanksAreHexDigits(h2, CardRank);
    TypeDominates(TypeOf(h1), Ranks(h1, CardRank).value, TypeOf(h2), Ranks(h2, CardRank).value);
  }

  /** Five-card hands of one type are ordered card by card. */
  lemma SameTypeByCards(h1: string, h2: string)
    requires |h1| == |h2| == 5 && HandKey(h1).Some? && HandKey(h2).Some? && TypeOf(h1) == TypeOf(h2)
    requires LexBelow(Ranks(h1, CardRank).value, Ranks(h2, CardRank).value)
    ensures HandKey(h1).value < HandKey(h2).value
  {
    RanksAreHexDigits(h1, CardRank);
    RanksAreHexDigits(h2, CardRank);
    WithinTypeIsLexicographic(TypeOf(h1), Ranks(h1, CardRank).value, Ranks(h2, CardRank).value);
  }

  /** Base-16 reading of a digit list, most significant first. */
  function Hex(ds: seq<nat>): nat
  {
    if ds == [] then 0 else ds[0] * Pow16(|ds| - 1) + Hex(ds[1..])
  }

  predicate HexDigits(ds: seq<nat>)
  {
    forall i :: 0 <= i < |ds| ==> ds[i] < 16
  }

  lemma {:induction false} HexBound(ds: seq<nat>)
    requires HexDigits(ds)
    ensures Hex(ds) < Pow16(|ds|)
  {
    if ds != [] {
      HexBound(ds[1..]);
      var p := Pow16(|ds| - 1);
      MulMono(ds[0], 15, p);
      assert Hex(ds) < ds[0] * p + p;
      assert Pow16(|ds|) == 16 * p;
    }
  }

  lemma {:induction false} HexSnoc(ds: seq<nat>, d: nat)
    ensures Hex(ds + [d]) == 16 * Hex(ds) + d
  {
    if ds == [] {
    } else {
      assert (ds + [d])[1..] == ds[1..] + [d];
      HexSnoc(ds[1..], d);
      calc {
        Hex(ds + [d]);
        ds[0] * Pow16(|ds|) + Hex(ds[1..] + [d]);
        ds[0] * (16 * Pow16(|ds| - 1)) + 16 * Hex(ds[1..]) + d;
        { assert ds[0] * (16 * Pow16(|ds| - 1)) == 16 * (ds[0] * Pow16(|ds| - 1)); }
        16 * Hex(ds) + d;
      }
    }
  }

  /** Up to five cards, the card part is the base-16 reading of the ranks,
      shifted up to fill five digits. */
  lemma {:induction false} CardSumIsHex(ranks: seq<nat>)
    requires |ranks| <= 5
    ensures CardSum(ranks) == Hex(ranks) * Pow16(5 - |ranks|)
  {
    if ranks != [] {
      var n := |ranks|;
      var init := ranks[..n - 1];
      CardSumIsHex(init);
      HexSnoc(init, ranks[n - 1]);
      assert init + [ranks[n - 1]] == ranks;
      var p := Pow16(5 - n);
      var h, r := Hex(init), ranks[n - 1];
      assert ranks[..n - 1] == init;
      assert CardSum(ranks) == CardSum(init) + r * p;
      assert Pow16(5 - (n - 1)) == 16 * p;
      ShiftDigit(h, r, p);
    }
  }

  lemma ShiftDigit(h: int, r: int, p: int)
    ensures h * (16 * p) + r * p == (16 * h + r) * p
  {
  }

  /** Cards after the fifth do not change the card part. */
  lemma {:induction false} CardSumFirstFive(ranks: seq<nat>)
    requires |ranks| >= 5
    ensures CardSum(ranks) == CardSum(ranks[..5])
  {
    if |ranks| > 5 {
      assert ranks[..|ranks| - 1][..5] == ranks[..5];
      CardSumFirstFive(ranks[..|ranks| - 1]);
    } else {
      assert ranks[..5] == ranks;
    }
  }

  /** With ranks below 16 the card part stays below 0x100000. */
  lemma CardSumBound(ranks: seq<nat>)
    requires HexDigits(ranks)
    ensures CardSum(ranks) < 0x100000
  {
    var r := if |ranks| <= 5 then ranks else ranks[..5];
    if |ranks| > 5 {
      CardSumFirstFive(ranks);
    }
    assert HexDigits(r);
    CardSumIsHex(r);
    HexBound(r);
    Pow16Add(|r|, 5 - |r|);
    assert Pow16(5) == 0x100000;
    assert Hex(r) * Pow16(5 - |r|) < Pow16(|r|) * Pow16(5 - |r|) by {
      assert Hex(r) + 1 <= Pow16(|r|);
      assert (Hex(r) + 1) * Pow16(5 - |r|) <= Pow16(|r|) * Pow16(5 - |r|);
    }
  }

  /** A stronger type always gives a larger key. */
  lemma TypeDominates(t1: nat, r1: seq<nat>, t2: nat, r2: seq<nat>)
    requires HexDigits(r1) && HexDigits(r2) && t1 > t2
    ensures Key(t1, r1) > Key(t2, r2)
  {
    CardSumBound(r1);
    CardSumBound(r2);
  }

  lemma MulMono(x: nat, y: nat, p: nat)
    requires x <= y
    ensures x * p <= y * p
  {
  }

  /** A larger leading digit outweighs any lower digits. */
  lemma LeadingDigit(x: nat, y: nat, t: nat, u: nat, p: nat)
    requires x < y && t < p
    ensures x * p + t < y * p + u
  {
    MulMono(x + 1, y, p);
  }

  /** Lexicographic order on rank lists. */
  predicate LexBelow(a: seq<nat>, b: seq<nat>)
  {
    |a| > 0 && |b| > 0 && (a[0] < b[0] || (a[0] == b[0] && LexBelow(a[1..], b[1..])))
  }

  lemma {:induction false} HexLex(a: seq<nat>, b: seq<nat>)
    requires |a| == |b| && HexDigits(a) && HexDigits(b) && LexBelow(a, b)
    ensures Hex(a) < Hex(b)
  {
    var p := Pow16(|a| - 1);
    assert Hex(a) == a[0] * p + Hex(a[1..]);
    assert Hex(b) == b[0] * p + Hex(b[1..]);
    if a[0] < b[0] {
      HexBound(a[1..]);
      LeadingDigit(a[0], b[0], Hex(a[1..]), Hex(b[1..]), p);
    } else {
      assert HexDigits(a[1..]) && HexDigits(b[1..]);
      HexLex(a[1..], b[1..]);
    }
  }

  /** Between five-card hands of one type, the key order is the
      lexicographic order of the card ranks. */
  lemma WithinTypeIsLexicographic(t: nat, r1: seq<nat>, r2: seq<nat>)
    requires |r1| == |r2| == 5 && HexDigits(r1) && HexDigits(r2) && LexBelow(r1, r2)
    ensures Key(t, r1) < Key(t, r2)
  {
    CardSumIsHex(r1);
    CardSumIsHex(r2);
    HexLex(r1, r2);
  }

  /** Insertion of a hand into a list sorted by key, after every hand whose
      key is not larger, as Python's stable `sorted` places it. */
  function Insert(x: (nat, Hand), sorted: seq<(nat, Hand)>): (r: seq<(nat, Hand)>)
    ensures multiset(r) == multiset(sorted) + multiset{x}
    ensures |r| == |sorted| + 1
  {
    if sorted == [] then [x]
    else if sorted[|sorted| - 1].0 <= x.0 then sorted + [x]
    else
      var init := sorted[..|sorted| - 1];
      assert sorted == init + [sorted[|sorted| - 1]];
      Insert(x, init) + [sorted[|sorted| - 1]]
  }

  predicate SortedByKey(s: seq<(nat, Hand)>)
  {
    forall i, j :: 0 <= i < j < |s| ==> s[i].0 <= s[j].0
  }

  lemma {:induction false} InsertSorted(x: (nat, Hand), sorted: seq<(nat, Hand)>)
    requires SortedByKey(sorted)
    ensures SortedByKey(Insert(x, sorted))
  {
    if sorted == [] {
    } else if sorted[|sorted| - 1].0 <= x.0 {
      SnocSorted(sorted, x);
    } else {
      var init := sorted[..|sorted| - 1];
      var last := sorted[|sorted| - 1];
      InsertSorted(x, init);
      var r := Insert(x, init);
      forall i | 0 <= i < |r| ensures r[i].0 <= last.0 {
        assert r[i] in multiset(r);
        if r[i] != x {
          assert r[i] in multiset(init);
          var j :| 0 <= j < |init| && init[j] == r[i];
          assert sorted[j] == init[j];
        }
      }
      SnocSorted(r, last);
    }
  }

  /** A hand with a key no smaller than any in a sorted list can go last. */
  lemma SnocSorted(s: seq<(nat, Hand)>, y: (nat, Hand))
    requires SortedByKey(s) && forall i :: 0 <= i < |s| ==> s[i].0 <= y.0
    ensures SortedByKey(s + [y])
  {
    var t := s + [y];
    forall i, j | 0 <= i < j < |t| ensures t[i].0 <= t[j].0 {
      if j == |s| {
        assert t[i] == s[i];
      } else {
        assert t[i] == s[i] && t[j] == s[j];
      }
    }
  }

  /** The hands tagged with their keys, sorted ascending by key. */
  function SortByKey(hs: seq<(nat, Hand)>): (r: seq<(nat, Hand)>)
  {
    if hs == [] then [] else Insert(hs[|hs| - 1], SortByKey(hs[..|hs| - 1]))
  }

  /** The hands of `s` whose key is `k`, in their order in `s`. */
  function WithKey(s: seq<(nat, Hand)>, k: nat): (r: seq<(nat, Hand)>)
    ensures |r| <= |s|
  {
    if s == [] then []
    else WithKey(s[..|s| - 1], k) + (if s[|s| - 1].0 == k then [s[|s| - 1]] else [])
  }

  /** Inserting a hand puts it after every hand of its own key, and leaves
      the hands of every other key as they were. */
  lemma {:induction false} InsertWithKey(x: (nat, Hand), sorted: seq<(nat, Hand)>, k: nat)
    ensures WithKey(Insert(x, sorted), k) == WithKey(sorted, k) + (if x.0 == k then [x] else [])
  {
    if sorted == [] {
      assert [x][..0] == [];
    } else {
      var r := Insert(x, sorted);
      var last := sorted[|sorted| - 1];
      var init := sorted[..|sorted| - 1];
      assert sorted == init + [last];
      if last.0 <= x.0 {
        assert r == sorted + [x] && r[..|r| - 1] == sorted;
      } else {
        InsertWithKey(x, init, k);
        assert r[..|r| - 1] == Insert(x, init) && r[|r| - 1] == last;
      }
    }
  }

  /** The sort keeps the hands of key `k` in the order they had. */
  lemma {:induction false} SortByKeyStable(hs: seq<(nat, Hand)>, k: nat)
    ensures WithKey(SortByKey(hs), k) == WithKey(hs, k)
  {
    if hs != [] {
      var init := hs[..|hs| - 1];
      SortByKeyStable(init, k);
      InsertWithKey(hs[|hs| - 1], SortByKey(init), k);
    }
  }

  /** The sort is a permutation and ascending. */
  lemma {:induction false} SortByKeyOrdered(hs: seq<(nat, Hand)>)
    ensures multiset(SortByKey(hs)) == multiset(hs)
    ensures SortedByKey(SortByKey(hs))
  {
    if hs != [] {
      var init := hs[..|hs| - 1];
      SortByKeyOrdered(init);
      InsertSorted(hs[|hs| - 1], SortByKey(init));
      assert hs == init + [hs[|hs| - 1]];
    }
  }

  /** The sort is a permutation, ascending, and stable: the hands of any one
      key keep the order they had. */
  lemma SortByKeyCorrect(hs: seq<(nat, Hand)>)
    ensures multiset(SortByKey(hs)) == multiset(hs)
    ensures SortedByKey(SortByKey(hs))
    ensures forall k :: WithKey(SortByKey(hs), k) == WithKey(hs, k)
  {
    SortByKeyOrdered(hs);
    forall k
      ensures WithKey(SortByKey(hs), k) == WithKey(hs, k)
    {
      SortByKeyStable(hs, k);
    }
  }
  /** Every hand tagged with its key, or `None` if some hand has a card
      without rank. */
  function Keyed(hands: seq<Hand>, key: string -> Option<nat>): Option<seq<(nat, Hand)>>
  {
    if hands == [] then Some([])
    else
      match Keyed(hands[..|hands| - 1], key)
      case None => None
      case Some(init) =>
        var last := hands[|hands| - 1];
        match key(last.cards)
        case None => None
        case Some(k) => Some(init + [(k, last)])
  }

  /** The sum over sorted hands of position (from 1) times bid, or `None` if
      a bid is not a number. */
  function WinningsOf(sorted: seq<(nat, Hand)>): Option<nat>
  {
    if sorted == [] then Some(0)
    else
      match WinningsOf(sorted[..|sorted| - 1])
      case None => None
      case Some(w) =>
        match Decimal(sorted[|sorted| - 1].1.bid)
        case None => None
        case Some(b) => Some(w + |sorted| * b)
  }

  /** `main`: key every hand, sort ascending, sum position times bid. */
  function TotalWinnings(hands: seq<Hand>, key: string -> Option<nat>): Option<nat>
  {
    match Keyed(hands, key)
    case None => None
    case Some(keyed) => WinningsOf(SortByKey(keyed))
  }

  /** The winnings loop of `main`. */
  method Winnings(sorted: seq<(nat, Hand)>) returns (w: Option<nat>)
    ensures w == WinningsOf(sorted)
  {
    var total := 0;
    for i := 0 to |sorted|
      invariant WinningsOf(sorted[..i]) == Some(total)
    {
      assert sorted[..i + 1][..i] == sorted[..i];
      var b := Decimal(sorted[i].1.bid);
      if b.None? {
        WinningsPrefixNone(sorted, i + 1);
        return None;
      }
      total := total + (i + 1) * b.value;
    }
    assert sorted[..|sorted|] == sorted;
    w := Some(total);
  }

  lemma {:induction false} WinningsPrefixNone(sorted: seq<(nat, Hand)>, k: nat)
    requires k <= |sorted| && WinningsOf(sorted[..k]).None?
    ensures WinningsOf(sorted).None?
    decreases |sorted| - k
  {
    if k < |sorted| {
      assert sorted[..k + 1][..k] == sorted[..k];
      WinningsPrefixNone(sorted, k + 1);
    } else {
      assert sorted[..k] == sorted;
    }
  }

  /** Each bid counts once per position up to its hand's: the winnings
      equal the sum over all positions `i` of the bids from `i` on. */
  lemma {:induction false} WinningsAreSuffixSums(sorted: seq<(nat, Hand)>, bids: seq<nat>)
    requires |bids| == |sorted| && forall i :: 0 <= i < |sorted| ==> Decimal(sorted[i].1.bid) == Some(bids[i])
    ensures WinningsOf(sorted) == Some(SuffixSums(bids))
  {
    if sorted != [] {
      var n := |sorted|;
      var init, initBids := sorted[..n - 1], bids[..n - 1];
      forall i | 0 <= i < |init|
        ensures Decimal(init[i].1.bid) == Some(initBids[i])
      {
        assert init[i] == sorted[i];
      }
      WinningsAreSuffixSums(init, initBids);
      assert Decimal(sorted[n - 1].1.bid) == Some(bids[n - 1]);
      SuffixSumsSnoc(bids[..n - 1], bids[n - 1]);
      assert bids[..n - 1] + [bids[n - 1]] == bids;
    }
  }

  function Total(xs: seq<nat>): nat
  {
    if xs == [] then 0 else Total(xs[..|xs| - 1]) + xs[|xs| - 1]
  }

  /** The sum over positions `i` of the total of `xs[i..]`. */
  function SuffixSums(xs: seq<nat>): nat
  {
    if xs == [] then 0 else Total(xs) + SuffixSums(xs[1..])
  }

  lemma {:induction false} TotalSnocFront(xs: seq<nat>, x: nat)
    ensures Total(xs + [x]) == Total(xs) + x
  {
    assert (xs + [x])[..|xs|] == xs;
  }

  lemma {:induction false} SuffixSumsSnoc(xs: seq<nat>, x: nat)
    ensures SuffixSums(xs + [x]) == SuffixSums(xs) + (|xs| + 1) * x
    decreases |xs|
  {
    if xs == [] {
      assert Total([x]) == x;
    } else {
      assert (xs + [x])[1..] == xs[1..] + [x];
      SuffixSumsSnoc(xs[1..], x);
      TotalSnocFront(xs, x);
    }
  }
}
