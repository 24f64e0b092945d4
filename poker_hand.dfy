/** Model of src/poker_hand.rs: the hand classifier of the card game. It counts suits and
    ranks, looks for a flush, n-of-a-kind patterns and a straight, and takes the first hand of
    a fixed ladder that holds, with the cards that score it. */
module Poker {
  import opened Wrappers
  import opened PlayingCard
  import Utils

  /** `PokerHand`, in declaration order, which is its derived `Ord`. */
  datatype PokerHand = HighCard | Pair | TwoPair | ThreeOfAKind | Straight | Flush | FullHouse
                     | FourOfAKind | StraightFlush | RoyalFlush | FiveOfAKind | FlushHouse | FlushFive

  /** Position in the derived order of `PokerHand`. */
  function HandOrder(h: PokerHand): (i: nat)
    ensures i < 13
  {
    match h
    case HighCard => 0
    case Pair => 1
    case TwoPair => 2
    case ThreeOfAKind => 3
    case Straight => 4
    case Flush => 5
    case FullHouse => 6
    case FourOfAKind => 7
    case StraightFlush => 8
    case RoyalFlush => 9
    case FiveOfAKind => 10
    case FlushHouse => 11
    case FlushFive => 12
  }

  /** `coin_value`: the reward for a hand. */
  function CoinValue(h: PokerHand): (v: int)
    ensures 0 <= v <= 170
    ensures v == 0 <==> h == HighCard
  {
    match h
    case FlushFive => 170
    case FlushHouse => 165
    case FiveOfAKind => 150
    case RoyalFlush => 140
    case StraightFlush => 120
    case FourOfAKind => 100
    case FullHouse => 80
    case Flush => 55
    case Straight => 50
    case ThreeOfAKind => 30
    case TwoPair => 20
    case Pair => 5
    case HighCard => 0
  }

  /** A better hand in the derived order is worth strictly more coins, and conversely. */
  lemma CoinValueFollowsOrder(a: PokerHand, b: PokerHand)
    ensures HandOrder(a) < HandOrder(b) <==> CoinValue(a) < CoinValue(b)
    ensures a == b <==> CoinValue(a) == CoinValue(b)
  {
  }

  /** `suit_to_index`: the suit's position in its derived order. */
  function SuitIndex(s: Suit): (i: nat)
    ensures i == SuitOrder(s) && i < 4
  {
    match s
    case Spade => 0
    case Heart => 1
    case Club => 2
    case Diamond => 3
  }

  /** `rank_to_index`: the rank's position in its derived order, Ace 0 to Num2 12. */
  function RankIndex(r: Rank): (i: nat)
    ensures i == RankOrder(r) && i < 13
  {
    match r
    case Ace => 0
    case King => 1
    case Queen => 2
    case Jack => 3
    case Num10 => 4
    case Num9 => 5
    case Num8 => 6
    case Num7 => 7
    case Num6 => 8
    case Num5 => 9
    case Num4 => 10
    case Num3 => 11
    case Num2 => 12
  }

  /** `rank_straight_value`: the face value with the ace high, so 14 down to 2 as the index
      goes up. */
  function StraightValue(r: Rank): (v: nat)
    ensures 2 <= v <= 14 && v + RankIndex(r) == 14
  {
    match r
    case Ace => 14
    case King => 13
    case Queen => 12
    case Jack => 11
    case Num10 => 10
    case Num9 => 9
    case Num8 => 8
    case Num7 => 7
    case Num6 => 6
    case Num5 => 5
    case Num4 => 4
    case Num3 => 3
    case Num2 => 2
  }

  /** The rank index determines the rank. */
  lemma RankIndexInjective(a: Rank, b: Rank)
    ensures RankIndex(a) == RankIndex(b) ==> a == b
  {
  }

  // ---------------------------------------------------------------- grouping

  function Last<T>(s: seq<T>): T
    requires |s| > 0
  {
    s[|s| - 1]
  }

  /** `cards_by_suit[si]`: the cards of suit index `si`, in input order. */
  function OfSuit(cards: seq<PlayingCard>, si: nat): (r: seq<PlayingCard>)
    ensures |r| <= |cards|
    ensures forall c :: c in r ==> c in cards && SuitIndex(c.suit) == si
    decreases |cards|
  {
    if |cards| == 0 then []
    else OfSuit(cards[..|cards| - 1], si) + (if SuitIndex(Last(cards).suit) == si then [Last(cards)] else [])
  }

  /** `cards_by_rank[ri]`: the cards of rank index `ri`, in input order. */
  function OfRank(cards: seq<PlayingCard>, ri: nat): (r: seq<PlayingCard>)
    ensures |r| <= |cards|
    ensures forall c :: c in r ==> c in cards && RankIndex(c.rank) == ri
    decreases |cards|
  {
    if |cards| == 0 then []
    else OfRank(cards[..|cards| - 1], ri) + (if RankIndex(Last(cards).rank) == ri then [Last(cards)] else [])
  }

  /** A card of the input is in the group of its own suit and its own rank. */
  lemma {:induction false} GroupsAreComplete(cards: seq<PlayingCard>, c: PlayingCard)
    requires c in cards
    ensures c in OfSuit(cards, SuitIndex(c.suit)) && c in OfRank(cards, RankIndex(c.rank))
    decreases |cards|
  {
    if Last(cards) != c {
      assert cards == cards[..|cards| - 1] + [Last(cards)];
      GroupsAreComplete(cards[..|cards| - 1], c);
    }
  }

  /** A group of a prefix is no larger than the group of the whole input. */
  lemma {:induction false} GroupsGrow(cards: seq<PlayingCard>, n: nat, i: nat)
    requires n <= |cards|
    ensures |OfSuit(cards[..n], i)| <= |OfSuit(cards, i)|
    ensures |OfRank(cards[..n], i)| <= |OfRank(cards, i)|
    decreases |cards|
  {
    if n < |cards| {
      assert cards[..|cards| - 1][..n] == cards[..n];
      GroupsGrow(cards[..|cards| - 1], n, i);
    } else {
      assert cards[..n] == cards;
    }
  }

  /** Two groups of distinct ranks share no card: together they are a sub-multiset of the
      input. The same holds for a group alone. */
  lemma {:induction false} RankGroupsDisjoint(cards: seq<PlayingCard>, i: nat, j: nat)
    requires i != j
    ensures multiset(OfRank(cards, i)) + multiset(OfRank(cards, j)) <= multiset(cards)
    decreases |cards|
  {
    if |cards| > 0 {
      var init := cards[..|cards| - 1];
      RankGroupsDisjoint(init, i, j);
      assert cards == init + [Last(cards)];
    }
  }

  lemma {:induction false} SuitGroupIsSubMultiset(cards: seq<PlayingCard>, i: nat)
    ensures multiset(OfSuit(cards, i)) <= multiset(cards)
    decreases |cards|
  {
    if |cards| > 0 {
      var init := cards[..|cards| - 1];
      SuitGroupIsSubMultiset(init, i);
      assert cards == init + [Last(cards)];
    }
  }

  lemma RankGroupIsSubMultiset(cards: seq<PlayingCard>, i: nat)
    ensures multiset(OfRank(cards, i)) <= multiset(cards)
  {
    RankGroupsDisjoint(cards, i, i + 1);
  }

  /** `u8` counters: `suit_counts[i] += 1` and `rank_counts[i] += 1` panic once a suit or a
      rank reaches 256 cards. */
  predicate CountsFit(cards: seq<PlayingCard>)
  {
    (forall i :: 0 <= i < 4 ==> |OfSuit(cards, i)| < 256) &&
    (forall i :: 0 <= i < 13 ==> |OfRank(cards, i)| < 256)
  }

  /** `take(n)`: the first n elements, in order, or all of them if there are fewer. */
  function Take<T>(s: seq<T>, n: nat): (r: seq<T>)
    ensures |r| == if |s| < n then |s| else n
    ensures r <= s
    ensures multiset(r) <= multiset(s)
    ensures forall x :: x in r ==> x in s
  {
    if |s| <= n then s
    else
      assert s == s[..n] + s[n..];
      s[..n]
  }

  // ---------------------------------------------------------------- stable sort

  predicate SortedDesc(s: seq<PlayingCard>, key: PlayingCard -> int)
  {
    forall i, j :: 0 <= i < j < |s| ==> key(s[i]) >= key(s[j])
  }

  /** Inserting into a list sorted by descending key, after every element whose key is at
      least as large (so equal keys keep their order). */
  function InsertDesc(t: seq<PlayingCard>, c: PlayingCard, key: PlayingCard -> int): (r: seq<PlayingCard>)
    ensures multiset(r) == multiset(t) + multiset{c}
    ensures |r| == |t| + 1
    decreases |t|
  {
    if |t| == 0 || key(Last(t)) >= key(c) then t + [c]
    else
      var r := InsertDesc(t[..|t| - 1], c, key) + [Last(t)];
      assert t == t[..|t| - 1] + [Last(t)];
      r
  }

  /** `sort_by_key(|c| Reverse(key(c)))`: a stable sort by descending key, as insertion sort. */
  function SortDesc(s: seq<PlayingCard>, key: PlayingCard -> int): (r: seq<PlayingCard>)
    ensures multiset(r) == multiset(s) && |r| == |s|
    decreases |s|
  {
    if |s| == 0 then []
    else
      var r := InsertDesc(SortDesc(s[..|s| - 1], key), Last(s), key);
      assert s == s[..|s| - 1] + [Last(s)];
      r
  }

  lemma {:induction false} InsertDescSorted(t: seq<PlayingCard>, c: PlayingCard, key: PlayingCard -> int)
    requires SortedDesc(t, key)
    ensures SortedDesc(InsertDesc(t, c, key), key)
    ensures forall x :: x in InsertDesc(t, c, key) ==> x in t || x == c
    decreases |t|
  {
    InsertDescMembers(t, c, key);
    if |t| > 0 && key(Last(t)) < key(c) {
      var init := t[..|t| - 1];
      InsertDescSorted(init, c, key);
      InsertDescMembers(init, c, key);
      var u := InsertDesc(init, c, key);
      forall x | x in u ensures key(x) >= key(Last(t)) {
        if x != c {
          assert x in init;
        }
      }
      assert InsertDesc(t, c, key) == u + [Last(t)];
    }
  }

  /** Insertion adds the one card and nothing else. */
  lemma InsertDescMembers(t: seq<PlayingCard>, c: PlayingCard, key: PlayingCard -> int)
    ensures forall x :: x in InsertDesc(t, c, key) ==> x in t || x == c
  {
    var r := InsertDesc(t, c, key);
    forall x | x in r ensures x in t || x == c {
      assert x in multiset(r);
    }
  }

  lemma {:induction false} SortDescSorted(s: seq<PlayingCard>, key: PlayingCard -> int)
    ensures SortedDesc(SortDesc(s, key), key)
    decreases |s|
  {
    if |s| > 0 {
      SortDescSorted(s[..|s| - 1], key);
      InsertDescSorted(SortDesc(s[..|s| - 1], key), Last(s), key);
    }
  }

  /** Sorting a list that is already in descending key order leaves it unchanged. */
  lemma {:induction false} SortDescOfSorted(s: seq<PlayingCard>, key: PlayingCard -> int)
    requires SortedDesc(s, key)
    ensures SortDesc(s, key) == s
    decreases |s|
  {
    if |s| > 0 {
      var init := s[..|s| - 1];
      SortedDescInit(s, key);
      SortDescOfSorted(init, key);
      assert SortDesc(s, key) == InsertDesc(init, Last(s), key);
      assert init + [Last(s)] == s;
    }
  }

  /** Dropping the last card keeps the order, and the last card's key is at most the one
      before it, so inserting it back puts it at the end. */
  lemma SortedDescInit(s: seq<PlayingCard>, key: PlayingCard -> int)
    requires SortedDesc(s, key) && |s| > 0
    ensures SortedDesc(s[..|s| - 1], key)
    ensures InsertDesc(s[..|s| - 1], Last(s), key) == s[..|s| - 1] + [Last(s)]
  {
    var init := s[..|s| - 1];
    forall i, j | 0 <= i < j < |init| ensures key(init[i]) >= key(init[j]) {
      assert init[i] == s[i] && init[j] == s[j];
    }
    if |init| > 0 {
      assert Last(init) == s[|s| - 2];
    }
  }

  function RankKey(c: PlayingCard): int
  {
    RankIndex(c.rank)
  }

  function StraightKey(c: PlayingCard): int
  {
    StraightValue(c.rank)
  }

  // ---------------------------------------------------------------- flush

  /** The first suit index from `si` on with five or more cards (the flush scan). */
  function FlushSuitFrom(cards: seq<PlayingCard>, si: nat): (r: Option<nat>)
    requires si <= 4
    ensures r.Some? ==> (si <= r.value < 4 && |OfSuit(cards, r.value)| >= 5 &&
      forall k :: si <= k < r.value ==> |OfSuit(cards, k)| < 5)
    ensures r.None? ==> forall k :: si <= k < 4 ==> |OfSuit(cards, k)| < 5
    decreases 4 - si
  {
    if si == 4 then None
    else if |OfSuit(cards, si)| >= 5 then Some(si)
    else FlushSuitFrom(cards, si + 1)
  }

  /** `flush_cards` for the flush suit: its cards sorted by `Reverse(rank)`, the first five. */
  function FlushCardsOf(cards: seq<PlayingCard>, si: nat): seq<PlayingCard>
  {
    Take(SortDesc(OfSuit(cards, si), RankKey), 5)
  }

  // ---------------------------------------------------------------- rank counts

  /** `rank_counts`. */
  function RankCounts(cards: seq<PlayingCard>): (c: seq<nat>)
    ensures |c| == 13 && forall i :: 0 <= i < 13 ==> c[i] == |OfRank(cards, i)|
  {
    seq(13, i requires 0 <= i < 13 => |OfRank(cards, i)|)
  }

  /** The last index below `k` whose count is exactly `n` (`best_five_rank_index`,
      `best_four_rank_index`). */
  function LastWith(counts: seq<nat>, n: nat, k: nat): (r: Option<nat>)
    requires k <= |counts|
    ensures r.Some? ==> r.value < k && counts[r.value] == n && forall j :: r.value < j < k ==> counts[j] != n
    ensures r.None? ==> forall j :: 0 <= j < k ==> counts[j] != n
  {
    if k == 0 then None
    else if counts[k - 1] == n then Some(k - 1)
    else LastWith(counts, n, k - 1)
  }

  /** The first index below `k` whose count is exactly `n` (`best_three_rank_index`). */
  function FirstWith(counts: seq<nat>, n: nat, k: nat): (r: Option<nat>)
    requires k <= |counts|
    ensures r.Some? ==> r.value < k && counts[r.value] == n && forall j :: 0 <= j < r.value ==> counts[j] != n
    ensures r.None? ==> forall j :: 0 <= j < k ==> counts[j] != n
  {
    if k == 0 then None
    else
      var r := FirstWith(counts, n, k - 1);
      if r.Some? then r else if counts[k - 1] == n then Some(k - 1) else None
  }

  /** The indices below `k` whose count is exactly two, ascending (`pair_rank_indices`). */
  function PairIndices(counts: seq<nat>, k: nat): (r: seq<nat>)
    requires k <= |counts|
    ensures forall i :: i in r ==> i < k
    ensures forall i :: 0 <= i < k ==> (i in r <==> counts[i] == 2)
    ensures forall a, b :: 0 <= a < b < |r| ==> r[a] < r[b]
    ensures forall a :: 0 <= a < |r| ==> r[a] < k
  {
    if k == 0 then []
    else PairIndices(counts, k - 1) + (if counts[k - 1] == 2 then [k - 1] else [])
  }

  /** `rank_counts.iter().position(|&count| count > 0)`. */
  function FirstNonzero(counts: seq<nat>, k: nat): (r: Option<nat>)
    requires k <= |counts|
    ensures r.Some? ==> r.value < k && counts[r.value] > 0 && forall j :: 0 <= j < r.value ==> counts[j] == 0
    ensures r.None? ==> forall j :: 0 <= j < k ==> counts[j] == 0
  {
    if k == 0 then None
    else
      var r := FirstNonzero(counts, k - 1);
      if r.Some? then r else if counts[k - 1] > 0 then Some(k - 1) else None
  }

  // ---------------------------------------------------------------- straight

  /** Some card of the hand has straight value `v`. */
  predicate Held(cards: seq<PlayingCard>, v: nat)
  {
    exists i :: 0 <= i < |cards| && StraightValue(cards[i].rank) == v
  }

  /** `rank_present`: slot `v` is set when some card has straight value `v`; slots 0 and 1 are
      never set. */
  function RankPresent(cards: seq<PlayingCard>): (p: seq<bool>)
    ensures |p| == 15
    ensures forall v :: 0 <= v < 15 ==> (p[v] <==> Held(cards, v))
  {
    seq(15, v requires 0 <= v < 15 => Held(cards, v))
  }

  /** The five slots `high`, `high - 1`, ..., `high - 4` are all set. */
  predicate Window(present: seq<bool>, high: nat)
    requires |present| == 15 && 4 <= high < 15
  {
    present[high] && present[high - 1] && present[high - 2] && present[high - 3] && present[high - 4]
  }

  /** The scan `for high in (5..=14).rev()`, from `high` down: the first window found. */
  function StraightHighFrom(present: seq<bool>, high: nat): (r: Option<nat>)
    requires |present| == 15 && high < 15
    ensures r.Some? ==> (5 <= r.value <= high && Window(present, r.value) &&
      forall h :: r.value < h <= high && h >= 5 ==> !Window(present, h))
    ensures r.None? ==> forall h :: 5 <= h <= high ==> !Window(present, h)
  {
    if high < 5 then None
    else if Window(present, high) then Some(high)
    else StraightHighFrom(present, high - 1)
  }

  /** `ace_low_straight`. */
  predicate AceLow(present: seq<bool>)
    requires |present| == 15
  {
    present[14] && present[2] && present[3] && present[4] && present[5]
  }

  /** `straight_ranks`: the ace-low list when the window is 5-high and an ace-low straight is
      present, otherwise the window's values from `high` down. */
  /** The wheel: the ace counted low, below the two. */
  const ACE_LOW_WINDOW: seq<nat> := [14, 2, 3, 4, 5]

  function StraightRanks(high: nat, aceLow: bool): (r: seq<nat>)
    requires high >= 4
    ensures |r| == 5
  {
    if high == 5 && aceLow then ACE_LOW_WINDOW else WindowValues(high)
  }

  /** `cards.iter().find(|c| rank_straight_value(c.rank) == v)`. */
  function FindValue(cards: seq<PlayingCard>, v: nat): (r: Option<PlayingCard>)
    ensures r.Some? ==> r.value in cards && StraightValue(r.value.rank) == v
    ensures r.Some? ==> exists i :: (0 <= i < |cards| && r.value == cards[i] &&
      StraightValue(cards[i].rank) == v &&
      forall j :: 0 <= j < i ==> StraightValue(cards[j].rank) != v)
    ensures r.None? <==> forall i :: 0 <= i < |cards| ==> StraightValue(cards[i].rank) != v
    decreases |cards|
  {
    if |cards| == 0 then None
    else if StraightValue(cards[0].rank) == v then Some(cards[0])
    else
      var r := FindValue(cards[1..], v);
      assert forall i :: 1 <= i < |cards| ==> cards[1..][i - 1] == cards[i];
      if r.Some? then
        var i :| 0 <= i < |cards[1..]| && r.value == cards[1..][i] &&
          StraightValue(cards[1..][i].rank) == v &&
          forall j :: 0 <= j < i ==> StraightValue(cards[1..][j].rank) != v;
        assert r.value == cards[i + 1] &&
          forall j :: 0 <= j < i + 1 ==> StraightValue(cards[j].rank) != v;
        r
      else r
  }

  /** One card per listed value, the ones found, in list order. */
  function PickCards(cards: seq<PlayingCard>, values: seq<nat>): (r: seq<PlayingCard>)
    ensures |r| <= |values|
    decreases |values|
  {
    if |values| == 0 then []
    else
      PickCards(cards, values[..|values| - 1]) +
      (match FindValue(cards, Last(values)) case None => [] case Some(c) => [c])
  }

  /** Picking for one more listed value appends that value's card, if any. */
  lemma PickCardsSnoc(cards: seq<PlayingCard>, values: seq<nat>, k: nat)
    requires k < |values|
    ensures PickCards(cards, values[..k + 1]) ==
      PickCards(cards, values[..k]) + (match FindValue(cards, values[k]) case None => [] case Some(c) => [c])
  {
    assert values[..k + 1][..k] == values[..k];
  }

  datatype StraightInfo = StraightInfo(isStraight: bool, cards: seq<PlayingCard>)

  /** `check_straight`. */
  function CheckStraightSpec(cards: seq<PlayingCard>): StraightInfo
  {
    var present := RankPresent(cards);
    match StraightHighFrom(present, 14)
    case None => StraightInfo(false, [])
    case Some(high) => StraightInfo(true, SortDesc(PickCards(cards, StraightRanks(high, AceLow(present))), StraightKey))
  }

  /** The 5-high window reads slot 1, which no card sets, so it never matches, and the
      ace-low list is never built: A-2-3-4-5 is not a straight. */
  lemma FiveHighWindowNeverMatches(cards: seq<PlayingCard>)
    ensures !Window(RankPresent(cards), 5)
    ensures match StraightHighFrom(RankPresent(cards), 14)
      case None => true
      case Some(high) => high >= 6
  {
    assert !RankPresent(cards)[1];
  }

  /** A straight is found exactly when five consecutive values, the highest from 6 to 14, are
      all held. */
  lemma StraightIff(cards: seq<PlayingCard>)
    ensures CheckStraightSpec(cards).isStraight <==> exists h :: 6 <= h <= 14 && Window(RankPresent(cards), h)
  {
    FiveHighWindowNeverMatches(cards);
  }

  /** Picking one card per value of a window that is fully held yields that many cards, of
      those values in order, with no card picked twice. */
  lemma {:induction false} PickCardsOfWindow(cards: seq<PlayingCard>, values: seq<nat>)
    requires forall k :: 0 <= k < |values| ==> Held(cards, values[k])
    ensures |PickCards(cards, values)| == |values|
    ensures forall k :: 0 <= k < |values| ==>
      PickCards(cards, values)[k] in cards && StraightValue(PickCards(cards, values)[k].rank) == values[k]
    decreases |values|
  {
    if |values| > 0 {
      var init := values[..|values| - 1];
      PickCardsOfWindow(cards, init);
      PickHeldLast(cards, values);
      var picked, before := PickCards(cards, values), PickCards(cards, init);
      forall k | 0 <= k < |values|
        ensures picked[k] in cards && StraightValue(picked[k].rank) == values[k]
      {
        if k < |init| {
          assert picked[..|before|][k] == picked[k] && init[k] == values[k];
        }
      }
    }
  }

  /** Picking for a held value appends a card of that value found among the cards. */
  lemma PickHeldLast(cards: seq<PlayingCard>, values: seq<nat>)
    requires |values| > 0 && Held(cards, Last(values))
    ensures var picked := PickCards(cards, values); var before := PickCards(cards, values[..|values| - 1]);
      |picked| == |before| + 1 && picked[..|before|] == before &&
      picked[|before|] in cards && StraightValue(picked[|before|].rank) == Last(values)
  {
    var i :| 0 <= i < |cards| && StraightValue(cards[i].rank) == Last(values);
  }

  /** A list of distinct cards, all from the input, uses no card more often than the input
      holds it. */
  lemma {:induction false} DistinctIsSubMultiset(s: seq<PlayingCard>, t: seq<PlayingCard>)
    requires forall a, b :: 0 <= a < b < |s| ==> s[a] != s[b]
    requires forall x :: x in s ==> x in t
    ensures multiset(s) <= multiset(t)
    decreases |s|
  {
    if |s| > 0 {
      var init := s[..|s| - 1];
      DistinctIsSubMultiset(init, t);
      assert s == init + [Last(s)];
      assert Last(s) !in init;
      assert multiset(init)[Last(s)] == 0;
      assert Last(s) in s;
      assert Last(s) in multiset(t);
    }
  }

  /** The values of the window from `high` down. */
  function WindowValues(high: nat): (v: seq<nat>)
    requires high >= 4
    ensures |v| == 5 && forall k :: 0 <= k < 5 ==> v[k] + k == high
  {
    [high, high - 1, high - 2, high - 3, high - 4]
  }

  lemma WindowHeld(cards: seq<PlayingCard>, high: nat)
    requires 6 <= high <= 14 && Window(RankPresent(cards), high)
    ensures forall k :: 0 <= k < 5 ==> Held(cards, WindowValues(high)[k])
  {
    var present := RankPresent(cards);
    forall k | 0 <= k < 5 ensures Held(cards, WindowValues(high)[k]) {
      assert present[high - k];
    }
  }

  /** Cards whose straight values step down by one are in sorting order and distinct. */
  lemma {:induction false} DescendingRun(p: seq<PlayingCard>, high: nat)
    requires forall k :: 0 <= k < |p| ==> StraightValue(p[k].rank) + k == high
    ensures SortedDesc(p, StraightKey)
    ensures forall a, b :: 0 <= a < b < |p| ==> p[a] != p[b]
  {
    forall a, b | 0 <= a < b < |p| ensures StraightKey(p[a]) >= StraightKey(p[b]) && p[a] != p[b] {
      assert StraightValue(p[a].rank) + a == high && StraightValue(p[b].rank) + b == high;
    }
  }

  /** The cards picked for a fully held window from `high` down: five, of the values
      `high` down to `high - 4`, already in sorting order, all from the input and none twice. */
  lemma WindowPick(cards: seq<PlayingCard>, high: nat)
    requires 6 <= high <= 14 && Window(RankPresent(cards), high)
    ensures var p := PickCards(cards, WindowValues(high));
      |p| == 5 && multiset(p) <= multiset(cards) && SortDesc(p, StraightKey) == p &&
      forall k :: 0 <= k < 5 ==> StraightValue(p[k].rank) + k == high
  {
    var values := WindowValues(high);
    WindowHeld(cards, high);
    PickCardsOfWindow(cards, values);
    var p := PickCards(cards, values);
    DescendingRun(p, high);
    SortDescOfSorted(p, StraightKey);
    DistinctIsSubMultiset(p, cards);
  }

  /** The straight's cards: five, one per value of the highest window from its top down, all
      from the input and none twice. */
  lemma StraightCards(cards: seq<PlayingCard>)
    requires CheckStraightSpec(cards).isStraight
    ensures var s := CheckStraightSpec(cards).cards;
      |s| == 5 && multiset(s) <= multiset(cards) &&
      6 <= StraightValue(s[0].rank) && forall k :: 0 <= k < 5 ==> StraightValue(s[k].rank) + k == StraightValue(s[0].rank)
  {
    var present := RankPresent(cards);
    FiveHighWindowNeverMatches(cards);
    var high := StraightHighFrom(present, 14).value;
    assert StraightRanks(high, AceLow(present)) == WindowValues(high);
    WindowPick(cards, high);
  }

  // ---------------------------------------------------------------- the ladder

  /** Everything `eval_poker_hand` has computed before it walks the ladder. */
  datatype Facts = Facts(
    cards: seq<PlayingCard>,
    byRank: seq<seq<PlayingCard>>,
    isFlush: bool,
    flushCards: seq<PlayingCard>,
    bestFive: Option<nat>,
    bestFour: Option<nat>,
    bestThree: Option<nat>,
    pairs: seq<nat>,
    straight: StraightInfo,
    isRoyalFlush: bool)

  /** The facts of a hand. */
  function FactsOf(cards: seq<PlayingCard>): (f: Facts)
    ensures |f.byRank| == 13
  {
    var counts := RankCounts(cards);
    var flushSuit := FlushSuitFrom(cards, 0);
    var straight := CheckStraightSpec(cards);
    Facts(
      cards,
      seq(13, i requires 0 <= i < 13 => OfRank(cards, i)),
      flushSuit.Some?,
      if flushSuit.Some? then FlushCardsOf(cards, flushSuit.value) else [],
      LastWith(counts, 5, 13),
      LastWith(counts, 4, 13),
      FirstWith(counts, 3, 13),
      PairIndices(counts, 13),
      straight,
      flushSuit.Some? && straight.isStraight && FirstNonzero(counts, 13) == Some(4))
  }

  /** `cards.iter().max_by_key(|c| c.rank)`: the last card of greatest rank in the derived
      order (so of the lowest face value). */
  function MaxByRank(cards: seq<PlayingCard>): (c: PlayingCard)
    requires |cards| > 0
    ensures c in cards && forall d :: d in cards ==> RankIndex(d.rank) <= RankIndex(c.rank)
    ensures exists i :: (0 <= i < |cards| && cards[i] == c &&
      forall j :: i < j < |cards| ==> RankIndex(cards[j].rank) < RankIndex(c.rank))
    decreases |cards|
  {
    if |cards| == 1 then cards[0]
    else
      var init := cards[..|cards| - 1];
      var best := MaxByRank(init);
      assert cards == init + [Last(cards)];
      if RankIndex(Last(cards).rank) >= RankIndex(best.rank) then
        assert cards[|cards| - 1] == Last(cards);
        Last(cards)
      else
        var i :| 0 <= i < |init| && init[i] == best &&
          forall j :: i < j < |init| ==> RankIndex(init[j].rank) < RankIndex(best.rank);
        assert cards[i] == best &&
          forall j :: i < j < |cards| ==> RankIndex(cards[j].rank) < RankIndex(best.rank);
        best
  }

  /** Whether a rung of the ladder holds (HighCard always does). */
  predicate Holds(h: PokerHand, f: Facts)
  {
    match h
    case FlushFive => f.isFlush && f.bestFive.Some?
    case FlushHouse => f.isFlush && f.bestThree.Some? && |f.pairs| >= 1
    case FiveOfAKind => f.bestFive.Some?
    case RoyalFlush => f.isRoyalFlush
    case StraightFlush => f.isFlush && f.straight.isStraight
    case FourOfAKind => f.bestFour.Some?
    case FullHouse => f.bestThree.Some? && |f.pairs| >= 1
    case Flush => f.isFlush
    case Straight => f.straight.isStraight
    case ThreeOfAKind => f.bestThree.Some?
    case TwoPair => |f.pairs| >= 2
    case Pair => |f.pairs| == 1
    case HighCard => true
  }

  /** The order the ladder tries the hands in. */
  const LADDER: seq<PokerHand> := [FlushFive, FlushHouse, FiveOfAKind, RoyalFlush, StraightFlush,
    FourOfAKind, FullHouse, Flush, Straight, ThreeOfAKind, TwoPair, Pair, HighCard]

  /** Where a hand sits on the ladder. */
  function Rung(h: PokerHand): (k: nat)
    ensures k < |LADDER| && LADDER[k] == h
  {
    match h
    case FlushFive => 0
    case FlushHouse => 1
    case FiveOfAKind => 2
    case RoyalFlush => 3
    case StraightFlush => 4
    case FourOfAKind => 5
    case FullHouse => 6
    case Flush => 7
    case Straight => 8
    case ThreeOfAKind => 9
    case TwoPair => 10
    case Pair => 11
    case HighCard => 12
  }

  /** The ladder: the first rung that holds, with its scoring cards. */
  function Ladder(f: Facts): (r: (PokerHand, seq<PlayingCard>))
    requires |f.byRank| == 13 && |f.cards| > 0
    requires f.bestFive.Some? ==> f.bestFive.value < 13
    requires f.bestFour.Some? ==> f.bestFour.value < 13
    requires f.bestThree.Some? ==> f.bestThree.value < 13
    requires forall k :: 0 <= k < |f.pairs| ==> f.pairs[k] < 13
  {
    if f.isFlush && f.bestFive.Some? then (FlushFive, f.flushCards)
    else if f.isFlush && f.bestThree.Some? && |f.pairs| >= 1 then (FlushHouse, f.flushCards)
    else if f.bestFive.Some? then (FiveOfAKind, Take(f.byRank[f.bestFive.value], 5))
    else if f.isRoyalFlush then (RoyalFlush, f.flushCards)
    else if f.isFlush && f.straight.isStraight then (StraightFlush, f.flushCards)
    else if f.bestFour.Some? then (FourOfAKind, Take(f.byRank[f.bestFour.value], 4))
    else if f.bestThree.Some? && |f.pairs| >= 1 then
      (FullHouse, Take(f.byRank[f.bestThree.value], 3) + Take(f.byRank[f.pairs[0]], 2))
    else if f.isFlush then (Flush, f.flushCards)
    else if f.straight.isStraight then (Straight, f.straight.cards)
    else if f.bestThree.Some? then (ThreeOfAKind, Take(f.byRank[f.bestThree.value], 3))
    else if |f.pairs| >= 2 then (TwoPair, Take(f.byRank[f.pairs[0]], 2) + Take(f.byRank[f.pairs[1]], 2))
    else if |f.pairs| == 1 then (Pair, Take(f.byRank[f.pairs[0]], 2))
    else (HighCard, [MaxByRank(f.cards)])
  }

  /** `eval_poker_hand`; an empty hand reaches the `unwrap` of the high-card case. */
  function Evaluate(cards: seq<PlayingCard>): (r: (PokerHand, seq<PlayingCard>))
    requires |cards| > 0
  {
    Ladder(FactsOf(cards))
  }

  /** The ladder picks the first rung, in ladder order, whose condition holds. */
  lemma LadderPicksFirstHolding(f: Facts)
    requires |f.byRank| == 13 && |f.cards| > 0
    requires f.bestFive.Some? ==> f.bestFive.value < 13
    requires f.bestFour.Some? ==> f.bestFour.value < 13
    requires f.bestThree.Some? ==> f.bestThree.value < 13
    requires forall k :: 0 <= k < |f.pairs| ==> f.pairs[k] < 13
    ensures Holds(Ladder(f).0, f)
    ensures forall h :: Rung(h) < Rung(Ladder(f).0) ==> !Holds(h, f)
  {
    var picked := Ladder(f).0;
    forall h | Rung(h) < Rung(picked) ensures !Holds(h, f) {
      match h
      case FlushFive =>
      case FlushHouse =>
      case FiveOfAKind =>
      case RoyalFlush =>
      case StraightFlush =>
      case FourOfAKind =>
      case FullHouse =>
      case Flush =>
      case Straight =>
      case ThreeOfAKind =>
      case TwoPair =>
      case Pair =>
      case HighCard =>
    }
  }

  // ---------------------------------------------------------------- what the evaluation promises

  /** A flush exists exactly when some suit has five or more cards; the first such suit in
      index order is used, and the flush list is five of its cards, lowest poker ranks first
      (descending derived order), taken from the input. */
  lemma FlushFacts(cards: seq<PlayingCard>)
    ensures FlushSuitFrom(cards, 0).Some? <==> exists si :: 0 <= si < 4 && |OfSuit(cards, si)| >= 5
    ensures FlushSuitFrom(cards, 0).Some? ==>
      var si := FlushSuitFrom(cards, 0).value;
      var fc := FlushCardsOf(cards, si);
      (forall k :: 0 <= k < si ==> |OfSuit(cards, k)| < 5) &&
      |fc| == 5 && multiset(fc) <= multiset(cards) &&
      (forall c :: c in fc ==> c in cards && SuitIndex(c.suit) == si) &&
      SortedDesc(fc, RankKey)
  {
    var fs := FlushSuitFrom(cards, 0);
    if fs.Some? {
      FlushCardsFacts(cards, fs.value);
    }
  }

  /** The flush cards of a suit with five or more cards: five of that suit's cards, by
      descending rank index. */
  lemma FlushCardsFacts(cards: seq<PlayingCard>, si: nat)
    requires |OfSuit(cards, si)| >= 5
    ensures var fc := FlushCardsOf(cards, si);
      |fc| == 5 && multiset(fc) <= multiset(cards) &&
      (forall c :: c in fc ==> c in cards && SuitIndex(c.suit) == si) &&
      SortedDesc(fc, RankKey)
  {
    var group := OfSuit(cards, si);
    var sorted := SortDesc(group, RankKey);
    SortDescSorted(group, RankKey);
    SuitGroupIsSubMultiset(cards, si);
    var fc := Take(sorted, 5);
    assert fc == sorted[..5];
    forall c | c in fc ensures c in cards && SuitIndex(c.suit) == si {
      assert c in multiset(sorted);
      assert c in group;
    }
  }

  /** The flush cards are the first five of the suit's cards in descending `RankKey` order,
      so every card of the suit left out has a key no greater than any of the five: with the
      derived `Rank` order (Ace first, Num2 last) the five are the suit's lowest cards. */
  lemma FlushCardsHaveGreatestKeys(cards: seq<PlayingCard>, si: nat)
    ensures var sorted := SortDesc(OfSuit(cards, si), RankKey);
      var fc := FlushCardsOf(cards, si);
      var rest := sorted[|fc|..];
      multiset(fc) + multiset(rest) == multiset(OfSuit(cards, si)) &&
      forall c, d :: c in fc && d in rest ==> RankKey(d) <= RankKey(c)
  {
    var sorted := SortDesc(OfSuit(cards, si), RankKey);
    SortDescSorted(OfSuit(cards, si), RankKey);
    var fc := FlushCardsOf(cards, si);
    assert fc == sorted[..|fc|];
    SortedSplit(sorted, |fc|, RankKey);
  }

  /** A list in descending key order splits anywhere into a front whose keys are all at least
      those of the back. */
  lemma SortedSplit(s: seq<PlayingCard>, k: nat, key: PlayingCard -> int)
    requires SortedDesc(s, key) && k <= |s|
    ensures multiset(s[..k]) + multiset(s[k..]) == multiset(s)
    ensures forall c, d :: c in s[..k] && d in s[k..] ==> key(d) <= key(c)
  {
    assert s == s[..k] + s[k..];
    forall c, d | c in s[..k] && d in s[k..] ensures key(d) <= key(c) {
      var i :| 0 <= i < k && s[..k][i] == c;
      var j :| 0 <= j < |s| - k && s[k..][j] == d;
      assert s[i] == c && s[k + j] == d;
    }
  }

  /** The n-of-a-kind scan looks at exact counts: a rank held six or more times is neither
      the five, the four or the three, nor a pair. */
  lemma SixOfAKindCountsForNothing(cards: seq<PlayingCard>, ri: nat)
    requires ri < 13 && |OfRank(cards, ri)| >= 6
    ensures FactsOf(cards).bestFive != Some(ri) && FactsOf(cards).bestFour != Some(ri)
    ensures FactsOf(cards).bestThree != Some(ri) && ri !in FactsOf(cards).pairs
  {
  }

  /** The three of the full house and of three of a kind is the lowest rank index (the best
      rank) with exactly three cards; the pairs are listed by ascending rank index. */
  lemma KindFacts(cards: seq<PlayingCard>)
    ensures var f := FactsOf(cards);
      (f.bestThree.Some? ==> (|OfRank(cards, f.bestThree.value)| == 3 &&
        forall j :: 0 <= j < f.bestThree.value ==> |OfRank(cards, j)| != 3)) &&
      (forall k :: 0 <= k < |f.pairs| ==> f.pairs[k] < 13 && |OfRank(cards, f.pairs[k])| == 2) &&
      (forall j :: 0 <= j < 13 ==> (j in f.pairs <==> |OfRank(cards, j)| == 2))
  {
  }

  /** How many cards score each hand. */
  function ScoringSize(h: PokerHand): nat
  {
    match h
    case FlushFive => 5
    case FlushHouse => 5
    case FiveOfAKind => 5
    case RoyalFlush => 5
    case StraightFlush => 5
    case FullHouse => 5
    case Flush => 5
    case Straight => 5
    case FourOfAKind => 4
    case TwoPair => 4
    case ThreeOfAKind => 3
    case Pair => 2
    case HighCard => 1
  }

  /** What the ladder relies on about the facts it is given: each group it may take from
      is large enough, and drawn from the input with two distinct rank groups sharing no card. */
  predicate WellFormed(f: Facts)
  {
    WellSized(f) && WellDrawn(f)
  }

  predicate WellSized(f: Facts)
  {
    |f.byRank| == 13 && |f.cards| > 0 &&
    (f.isFlush ==> |f.flushCards| == 5) &&
    (f.isRoyalFlush ==> f.isFlush && f.straight.isStraight) &&
    (f.bestFive.Some? ==> f.bestFive.value < 13 && |f.byRank[f.bestFive.value]| == 5) &&
    (f.bestFour.Some? ==> f.bestFour.value < 13 && |f.byRank[f.bestFour.value]| == 4) &&
    (f.bestThree.Some? ==> f.bestThree.value < 13 && |f.byRank[f.bestThree.value]| == 3) &&
    (forall k :: 0 <= k < |f.pairs| ==> f.pairs[k] < 13 && |f.byRank[f.pairs[k]]| == 2) &&
    (forall a, b :: 0 <= a < b < |f.pairs| ==> f.pairs[a] < f.pairs[b]) &&
    (f.straight.isStraight ==> |f.straight.cards| == 5)
  }

  predicate WellDrawn(f: Facts)
  {
    |f.byRank| == 13 &&
    (f.isFlush ==> multiset(f.flushCards) <= multiset(f.cards)) &&
    (forall i :: 0 <= i < 13 ==> multiset(f.byRank[i]) <= multiset(f.cards)) &&
    (forall i, j :: 0 <= i < j < 13 ==> multiset(f.byRank[i]) + multiset(f.byRank[j]) <= multiset(f.cards)) &&
    (f.straight.isStraight ==> multiset(f.straight.cards) <= multiset(f.cards))
  }

  lemma {:induction false} FactsOfWellFormed(cards: seq<PlayingCard>)
    requires |cards| > 0
    ensures WellFormed(FactsOf(cards))
  {
    FactsOfWellSized(cards);
    FactsOfWellDrawn(cards);
  }

  lemma FactsOfWellSized(cards: seq<PlayingCard>)
    requires |cards| > 0
    ensures WellSized(FactsOf(cards))
  {
    FlushFacts(cards);
    if FactsOf(cards).straight.isStraight {
      StraightCards(cards);
    }
  }

  lemma FactsOfWellDrawn(cards: seq<PlayingCard>)
    ensures WellDrawn(FactsOf(cards))
  {
    var f := FactsOf(cards);
    FlushFacts(cards);
    if f.straight.isStraight {
      StraightCards(cards);
    }
    forall i | 0 <= i < 13 ensures multiset(f.byRank[i]) <= multiset(f.cards) {
      RankGroupIsSubMultiset(cards, i);
    }
    forall i, j | 0 <= i < j < 13 ensures multiset(f.byRank[i]) + multiset(f.byRank[j]) <= multiset(f.cards) {
      RankGroupsDisjoint(cards, i, j);
    }
  }

  /** On well-formed facts the ladder's scoring cards number as many as the hand calls for. */
  lemma LadderScoringSize(f: Facts)
    requires WellSized(f)
    ensures |Ladder(f).1| == ScoringSize(Ladder(f).0)
  {
    var r := Ladder(f);
    if f.isFlush && f.bestFive.Some? {
      assert r == (FlushFive, f.flushCards);
      assert |r.1| == ScoringSize(r.0);
    } else if f.isFlush && f.bestThree.Some? && |f.pairs| >= 1 {
      assert r == (FlushHouse, f.flushCards);
      assert |r.1| == ScoringSize(r.0);
    } else if f.bestFive.Some? {
      var v := f.bestFive.value;
      assert r == (FiveOfAKind, Take(f.byRank[v], 5));
      assert |r.1| == ScoringSize(r.0);
    } else if f.isRoyalFlush {
      assert r == (RoyalFlush, f.flushCards);
      assert |r.1| == ScoringSize(r.0);
    } else if f.isFlush && f.straight.isStraight {
      assert r == (StraightFlush, f.flushCards);
      assert |r.1| == ScoringSize(r.0);
    } else if f.bestFour.Some? {
      var v := f.bestFour.value;
      assert r == (FourOfAKind, Take(f.byRank[v], 4));
      assert |r.1| == ScoringSize(r.0);
    } else if f.bestThree.Some? && |f.pairs| >= 1 {
      var t, p := f.bestThree.value, f.pairs[0];
      assert r == (FullHouse, Take(f.byRank[t], 3) + Take(f.byRank[p], 2));
      assert |r.1| == ScoringSize(r.0);
    } else if f.isFlush {
      assert r == (Flush, f.flushCards);
      assert |r.1| == ScoringSize(r.0);
    } else if f.straight.isStraight {
      assert r == (Straight, f.straight.cards);
      assert |r.1| == ScoringSize(r.0);
    } else if f.bestThree.Some? {
      var v := f.bestThree.value;
      assert r == (ThreeOfAKind, Take(f.byRank[v], 3));
      assert |r.1| == ScoringSize(r.0);
    } else if |f.pairs| >= 2 {
      var p, q := f.pairs[0], f.pairs[1];
      assert r == (TwoPair, Take(f.byRank[p], 2) + Take(f.byRank[q], 2));
      assert |r.1| == ScoringSize(r.0);
    } else if |f.pairs| == 1 {
      var p := f.pairs[0];
      assert r == (Pair, Take(f.byRank[p], 2));
      assert |r.1| == ScoringSize(r.0);
    } else {
      assert r == (HighCard, [MaxByRank(f.cards)]);
      assert |r.1| == ScoringSize(r.0);
    }
  }

  /** On well-formed facts the ladder's scoring cards are drawn from the input, none more
      often than the input holds it. */
  lemma LadderScoringDrawn(f: Facts)
    requires WellFormed(f)
    ensures multiset(Ladder(f).1) <= multiset(f.cards)
  {
    var r := Ladder(f);
    if f.isFlush && f.bestFive.Some? {
      assert r == (FlushFive, f.flushCards);
    } else if f.isFlush && f.bestThree.Some? && |f.pairs| >= 1 {
      assert r == (FlushHouse, f.flushCards);
    } else if f.bestFive.Some? {
      var v := f.bestFive.value;
      assert r == (FiveOfAKind, Take(f.byRank[v], 5));
      assert multiset(f.byRank[v]) <= multiset(f.cards);
    } else if f.isRoyalFlush {
      assert r == (RoyalFlush, f.flushCards);
    } else if f.isFlush && f.straight.isStraight {
      assert r == (StraightFlush, f.flushCards);
    } else if f.bestFour.Some? {
      var v := f.bestFour.value;
      assert r == (FourOfAKind, Take(f.byRank[v], 4));
      assert multiset(f.byRank[v]) <= multiset(f.cards);
    } else if f.bestThree.Some? && |f.pairs| >= 1 {
      var t, p := f.bestThree.value, f.pairs[0];
      assert r == (FullHouse, Take(f.byRank[t], 3) + Take(f.byRank[p], 2));
      DisjointTakes(f, t, 3, p, 2);
    } else if f.isFlush {
      assert r == (Flush, f.flushCards);
    } else if f.straight.isStraight {
      assert r == (Straight, f.straight.cards);
    } else if f.bestThree.Some? {
      var v := f.bestThree.value;
      assert r == (ThreeOfAKind, Take(f.byRank[v], 3));
      assert multiset(f.byRank[v]) <= multiset(f.cards);
    } else if |f.pairs| >= 2 {
      var p, q := f.pairs[0], f.pairs[1];
      assert r == (TwoPair, Take(f.byRank[p], 2) + Take(f.byRank[q], 2));
      DisjointTakes(f, p, 2, q, 2);
    } else if |f.pairs| == 1 {
      var p := f.pairs[0];
      assert r == (Pair, Take(f.byRank[p], 2));
      assert multiset(f.byRank[p]) <= multiset(f.cards);
    } else {
      assert r == (HighCard, [MaxByRank(f.cards)]);
      assert MaxByRank(f.cards) in f.cards;
    }
  }

  /** Taking from two distinct rank groups uses no card more often than the input holds it. */
  lemma DisjointTakes(f: Facts, i: nat, m: nat, j: nat, n: nat)
    requires WellFormed(f) && i < 13 && j < 13 && i != j
    ensures multiset(Take(f.byRank[i], m) + Take(f.byRank[j], n)) <= multiset(f.cards)
  {
    if i < j {
      assert multiset(f.byRank[i]) + multiset(f.byRank[j]) <= multiset(f.cards);
    } else {
      assert multiset(f.byRank[j]) + multiset(f.byRank[i]) <= multiset(f.cards);
    }
  }

  /** The scoring cards of `eval_poker_hand`: as many as the hand calls for, all from the
      input, none used more often than the input holds it. */
  lemma ScoringCards(cards: seq<PlayingCard>)
    requires |cards| > 0
    ensures |Evaluate(cards).1| == ScoringSize(Evaluate(cards).0)
    ensures multiset(Evaluate(cards).1) <= multiset(cards)
  {
    FactsOfWellFormed(cards);
    LadderScoringSize(FactsOf(cards));
    LadderScoringDrawn(FactsOf(cards));
  }

  /** The high card is a card of the input whose rank is at least as great as every other
      card's in the derived order (so the worst face value). */
  lemma HighCardIsMaximal(cards: seq<PlayingCard>)
    requires |cards| > 0 && Evaluate(cards).0 == HighCard
    ensures |Evaluate(cards).1| == 1 && Evaluate(cards).1[0] in cards
    ensures forall d :: d in cards ==> RankOrder(d.rank) <= RankOrder(Evaluate(cards).1[0].rank)
  {
  }

  /** The royal-flush test looks at the first rank index present, not at the straight: it
      holds exactly for a flush and a straight whose best rank is a ten, so a hand with an ace,
      a king, a queen or a jack is never a royal flush. */
  lemma RoyalFlushAsWritten(cards: seq<PlayingCard>)
    ensures FactsOf(cards).isRoyalFlush <==>
      FactsOf(cards).isFlush && CheckStraightSpec(cards).isStraight &&
      (exists c :: c in cards && c.rank == Num10) &&
      (forall c :: c in cards ==> RankIndex(c.rank) >= 4)
  {
    FirstPresentIsTen(cards);
  }

  /** A rank index no card has has an empty group. */
  lemma {:induction false} AbsentRankGroupIsEmpty(cards: seq<PlayingCard>, ri: nat)
    requires forall c :: c in cards ==> RankIndex(c.rank) != ri
    ensures OfRank(cards, ri) == []
    decreases |cards|
  {
    if |cards| > 0 {
      assert Last(cards) in cards;
      AbsentRankGroupIsEmpty(cards[..|cards| - 1], ri);
    }
  }

  /** The first rank index with a nonzero count is that of Num10 exactly when some card is a
      Ten and no card has a lower rank index. */
  lemma FirstPresentIsTen(cards: seq<PlayingCard>)
    ensures FirstNonzero(RankCounts(cards), 13) == Some(4) <==>
      (exists c :: c in cards && c.rank == Num10) &&
      (forall c :: c in cards ==> RankIndex(c.rank) >= 4)
  {
    var counts := RankCounts(cards);
    if FirstNonzero(counts, 13) == Some(4) {
      forall c | c in cards ensures RankIndex(c.rank) >= 4 {
        GroupsAreComplete(cards, c);
      }
      assert OfRank(cards, 4)[0] in OfRank(cards, 4);
    }
    if (exists c :: c in cards && c.rank == Num10) && (forall c :: c in cards ==> RankIndex(c.rank) >= 4) {
      var c :| c in cards && c.rank == Num10;
      GroupsAreComplete(cards, c);
      forall j | 0 <= j < 4 ensures counts[j] == 0 {
        AbsentRankGroupIsEmpty(cards, j);
      }
    }
  }

  // ---------------------------------------------------------------- the imperative evaluator

  type U8 = x: int | 0 <= x < 256

  /** A card's straight value appended to the hand is held from then on. */
  lemma HeldSnoc(cards: seq<PlayingCard>, c: PlayingCard, v: nat)
    ensures Held(cards + [c], v) <==> Held(cards, v) || StraightValue(c.rank) == v
  {
    if Held(cards, v) {
      var i :| 0 <= i < |cards| && StraightValue(cards[i].rank) == v;
      assert (cards + [c])[i] == cards[i];
    }
    if Held(cards + [c], v) && StraightValue(c.rank) != v {
      var i :| 0 <= i < |cards + [c]| && StraightValue((cards + [c])[i].rank) == v;
      assert i < |cards| && (cards + [c])[i] == cards[i];
    }
    if StraightValue(c.rank) == v {
      assert (cards + [c])[|cards|] == c;
    }
  }

  /** The first loop of `check_straight`: slot `v` of `rank_present` is set exactly when some
      card has straight value `v`. */
  method MarkPresent(cards: seq<PlayingCard>) returns (rankPresent: array<bool>)
    ensures fresh(rankPresent) && rankPresent[..] == RankPresent(cards)
  {
    rankPresent := new bool[15](_ => false);
    for i := 0 to |cards|
      invariant rankPresent.Length == 15
      invariant forall v :: 0 <= v < 15 ==> (rankPresent[v] <==> Held(cards[..i], v))
    {
      var value := StraightValue(cards[i].rank);
      rankPresent[value] := true;
      assert cards[..i + 1] == cards[..i] + [cards[i]];
      forall v | 0 <= v < 15 ensures Held(cards[..i + 1], v) <==> Held(cards[..i], v) || value == v {
        HeldSnoc(cards[..i], cards[i], v);
      }
    }
    assert cards[..|cards|] == cards;
  }

  /** The inner loop of `check_straight`: the window ending at `high` is fully set. */
  method WindowSet(rankPresent: array<bool>, high: nat) returns (isStraight: bool)
    requires rankPresent.Length == 15 && 4 <= high < 15
    ensures isStraight == Window(rankPresent[..], high)
  {
    isStraight := true;
    var index := 0;
    while index < 5
      invariant 0 <= index <= 5
      invariant isStraight && forall j :: high - index < j <= high ==> rankPresent[j]
    {
      if !rankPresent[high - index] {
        isStraight := false;
        break;
      }
      index := index + 1;
    }
  }

  /** The pick loop of `check_straight`: the first card of each listed value, when there is one. */
  method PickStraight(cards: seq<PlayingCard>, straightRanks: seq<nat>) returns (straightCards: seq<PlayingCard>)
    ensures straightCards == PickCards(cards, straightRanks)
  {
    straightCards := [];
    for k := 0 to |straightRanks|
      invariant straightCards == PickCards(cards, straightRanks[..k])
    {
      var found := FindValue(cards, straightRanks[k]);
      PickCardsSnoc(cards, straightRanks, k);
      if found.Some? {
        straightCards := straightCards + [found.value];
      }
    }
    assert straightRanks[..|straightRanks|] == straightRanks;
  }

  /** `check_straight`: marks the straight values held, scans the windows from the 14-high one
      down, and for the first fully set window picks one card per value and sorts them by
      descending straight value. */
  method CheckStraight(cards: seq<PlayingCard>) returns (info: StraightInfo)
    ensures info == CheckStraightSpec(cards)
  {
    var rankPresent := MarkPresent(cards);
    ghost var present := rankPresent[..];
    var aceLowStraight := rankPresent[14] && rankPresent[2] && rankPresent[3] && rankPresent[4] && rankPresent[5];
    assert aceLowStraight == AceLow(present);
    var high := 14;
    while high >= 5
      invariant 4 <= high <= 14 && rankPresent[..] == present
      invariant StraightHighFrom(present, 14) == StraightHighFrom(present, high)
      decreases high
    {
      var isStraight := WindowSet(rankPresent, high);
      if isStraight {
        var straightRanks := if high == 5 && aceLowStraight then ACE_LOW_WINDOW
                             else [high, high - 1, high - 2, high - 3, high - 4];
        assert straightRanks == StraightRanks(high, AceLow(present));
        var straightCards := PickStraight(cards, straightRanks);
        straightCards := SortDesc(straightCards, StraightKey);
        return StraightInfo(true, straightCards);
      }
      high := high - 1;
    }
    return StraightInfo(false, []);
  }

  /** The counters and groups after the cards of `prefix`: each group holds the cards of its
      suit or rank in input order, and each counter its group's size. */
  ghost predicate Grouped(prefix: seq<PlayingCard>, suitCounts: seq<U8>, rankCounts: seq<U8>,
                          cardsBySuit: seq<seq<PlayingCard>>, cardsByRank: seq<seq<PlayingCard>>)
  {
    SuitsGrouped(prefix, suitCounts, cardsBySuit) && RanksGrouped(prefix, rankCounts, cardsByRank)
  }

  ghost predicate SuitsGrouped(prefix: seq<PlayingCard>, suitCounts: seq<U8>, cardsBySuit: seq<seq<PlayingCard>>)
  {
    |suitCounts| == 4 && |cardsBySuit| == 4 &&
    forall s :: 0 <= s < 4 ==> cardsBySuit[s] == OfSuit(prefix, s) && suitCounts[s] == |cardsBySuit[s]|
  }

  ghost predicate RanksGrouped(prefix: seq<PlayingCard>, rankCounts: seq<U8>, cardsByRank: seq<seq<PlayingCard>>)
  {
    |rankCounts| == 13 && |cardsByRank| == 13 &&
    forall r :: 0 <= r < 13 ==> cardsByRank[r] == OfRank(prefix, r) && rankCounts[r] == |cardsByRank[r]|
  }

  /** Counting the next card adds it to its own suit and rank groups and to no other; its
      counters stay below 256 when no group of the whole hand reaches 256. */
  lemma GroupStep(cards: seq<PlayingCard>, i: nat, suitCounts: seq<U8>, rankCounts: seq<U8>,
                  cardsBySuit: seq<seq<PlayingCard>>, cardsByRank: seq<seq<PlayingCard>>)
    requires i < |cards| && CountsFit(cards)
    requires Grouped(cards[..i], suitCounts, rankCounts, cardsBySuit, cardsByRank)
    ensures var si, ri := SuitIndex(cards[i].suit), RankIndex(cards[i].rank);
      suitCounts[si] < 255 && rankCounts[ri] < 255 &&
      Grouped(cards[..i + 1],
        suitCounts[si := suitCounts[si] + 1], rankCounts[ri := rankCounts[ri] + 1],
        cardsBySuit[si := cardsBySuit[si] + [cards[i]]], cardsByRank[ri := cardsByRank[ri] + [cards[i]]])
  {
    SuitGroupStep(cards, i, suitCounts, cardsBySuit);
    RankGroupStep(cards, i, rankCounts, cardsByRank);
  }

  lemma SuitGroupStep(cards: seq<PlayingCard>, i: nat, suitCounts: seq<U8>, cardsBySuit: seq<seq<PlayingCard>>)
    requires i < |cards| && |OfSuit(cards, SuitIndex(cards[i].suit))| < 256
    requires SuitsGrouped(cards[..i], suitCounts, cardsBySuit)
    ensures var si := SuitIndex(cards[i].suit);
      suitCounts[si] < 255 &&
      SuitsGrouped(cards[..i + 1], suitCounts[si := suitCounts[si] + 1], cardsBySuit[si := cardsBySuit[si] + [cards[i]]])
  {
    var si := SuitIndex(cards[i].suit);
    GroupsGrow(cards, i + 1, si);
    OfSuitSnoc(cards, i, si);
    var counts := suitCounts[si := suitCounts[si] + 1];
    var groups := cardsBySuit[si := cardsBySuit[si] + [cards[i]]];
    forall s | 0 <= s < 4 ensures groups[s] == OfSuit(cards[..i + 1], s) && counts[s] == |groups[s]| {
      OfSuitSnoc(cards, i, s);
    }
  }

  lemma RankGroupStep(cards: seq<PlayingCard>, i: nat, rankCounts: seq<U8>, cardsByRank: seq<seq<PlayingCard>>)
    requires i < |cards| && |OfRank(cards, RankIndex(cards[i].rank))| < 256
    requires RanksGrouped(cards[..i], rankCounts, cardsByRank)
    ensures var ri := RankIndex(cards[i].rank);
      rankCounts[ri] < 255 &&
      RanksGrouped(cards[..i + 1], rankCounts[ri := rankCounts[ri] + 1], cardsByRank[ri := cardsByRank[ri] + [cards[i]]])
  {
    var ri := RankIndex(cards[i].rank);
    GroupsGrow(cards, i + 1, ri);
    OfRankSnoc(cards, i, ri);
    var counts := rankCounts[ri := rankCounts[ri] + 1];
    var groups := cardsByRank[ri := cardsByRank[ri] + [cards[i]]];
    forall r | 0 <= r < 13 ensures groups[r] == OfRank(cards[..i + 1], r) && counts[r] == |groups[r]| {
      OfRankSnoc(cards, i, r);
    }
  }

  /** The groups of a prefix one card longer: the new card joins its own group only. */
  lemma OfSuitSnoc(cards: seq<PlayingCard>, i: nat, s: nat)
    requires i < |cards|
    ensures OfSuit(cards[..i + 1], s) == OfSuit(cards[..i], s) + (if SuitIndex(cards[i].suit) == s then [cards[i]] else [])
  {
    var next := cards[..i + 1];
    assert next[..|next| - 1] == cards[..i] && Last(next) == cards[i];
  }

  lemma OfRankSnoc(cards: seq<PlayingCard>, i: nat, r: nat)
    requires i < |cards|
    ensures OfRank(cards[..i + 1], r) == OfRank(cards[..i], r) + (if RankIndex(cards[i].rank) == r then [cards[i]] else [])
  {
    var next := cards[..i + 1];
    assert next[..|next| - 1] == cards[..i] && Last(next) == cards[i];
  }

  /** Rank groups and counters gathered over the whole hand are those the facts record. */
  lemma RanksGroupedAreFacts(cards: seq<PlayingCard>, rankCounts: seq<U8>, cardsByRank: seq<seq<PlayingCard>>)
    requires RanksGrouped(cards, rankCounts, cardsByRank)
    ensures rankCounts == RankCounts(cards)
    ensures cardsByRank == seq(13, i requires 0 <= i < 13 => OfRank(cards, i))
  {
  }

  /** The first loop of `eval_poker_hand`: counts and groups the cards by suit and by rank, in
      input order. The `u8` counters never overflow because no group reaches 256 cards. */
  method GroupCards(cards: seq<PlayingCard>)
    returns (suitCounts: array<U8>, rankCounts: array<U8>,
             cardsBySuit: seq<seq<PlayingCard>>, cardsByRank: seq<seq<PlayingCard>>)
    requires CountsFit(cards)
    ensures fresh(suitCounts) && fresh(rankCounts)
    ensures Grouped(cards, suitCounts[..], rankCounts[..], cardsBySuit, cardsByRank)
  {
    suitCounts := new U8[4](_ => 0);
    rankCounts := new U8[13](_ => 0);
    cardsBySuit := seq(4, _ => []);
    cardsByRank := seq(13, _ => []);
    for i := 0 to |cards|
      invariant Grouped(cards[..i], suitCounts[..], rankCounts[..], cardsBySuit, cardsByRank)
    {
      var card := cards[i];
      var suitIndex := SuitIndex(card.suit);
      var rankIndex := RankIndex(card.rank);
      GroupStep(cards, i, suitCounts[..], rankCounts[..], cardsBySuit, cardsByRank);
      suitCounts[suitIndex] := suitCounts[suitIndex] + 1;
      rankCounts[rankIndex] := rankCounts[rankIndex] + 1;
      cardsBySuit := cardsBySuit[suitIndex := cardsBySuit[suitIndex] + [card]];
      cardsByRank := cardsByRank[rankIndex := cardsByRank[rankIndex] + [card]];
    }
    assert cards[..|cards|] == cards;
  }

  /** The flush scan of `eval_poker_hand`: the first suit with five or more cards, and its cards
      sorted by descending rank index, the first five. */
  method FindFlush(ghost cards: seq<PlayingCard>, suitCounts: seq<nat>, cardsBySuit: seq<seq<PlayingCard>>)
    returns (flushSuit: Option<nat>, flushCards: seq<PlayingCard>)
    requires |suitCounts| == 4 && |cardsBySuit| == 4
    requires forall s :: 0 <= s < 4 ==> cardsBySuit[s] == OfSuit(cards, s) && suitCounts[s] == |OfSuit(cards, s)|
    ensures flushSuit == FlushSuitFrom(cards, 0)
    ensures flushCards == if flushSuit.Some? then FlushCardsOf(cards, flushSuit.value) else []
  {
    flushSuit := None;
    flushCards := [];
    var index := 0;
    while index < 4
      invariant 0 <= index <= 4 && FlushSuitFrom(cards, 0) == FlushSuitFrom(cards, index)
      invariant flushSuit == None && flushCards == []
    {
      if suitCounts[index] >= 5 {
        flushSuit := Some(index);
        var suitCards := SortDesc(cardsBySuit[index], RankKey);
        flushCards := Take(suitCards, 5);
        break;
      }
      index := index + 1;
    }
  }

  /** The n-of-a-kind scan of `eval_poker_hand`: the last rank counted five times, the last
      counted four times, the first counted three times, and every rank counted twice in index
      order (`has_five`, `has_four`, `has_three` and `pair_count` are these being present and
      the number of pairs). */
  method ScanRanks(rankCounts: seq<nat>)
    returns (bestFive: Option<nat>, bestFour: Option<nat>, bestThree: Option<nat>, pairRankIndices: seq<nat>)
    requires |rankCounts| == 13
    ensures bestFive == LastWith(rankCounts, 5, 13) && bestFour == LastWith(rankCounts, 4, 13)
    ensures bestThree == FirstWith(rankCounts, 3, 13) && pairRankIndices == PairIndices(rankCounts, 13)
  {
    bestFive, bestFour, bestThree, pairRankIndices := None, None, None, [];
    for rankIndex := 0 to 13
      invariant bestFive == LastWith(rankCounts, 5, rankIndex) && bestFour == LastWith(rankCounts, 4, rankIndex)
      invariant bestThree == FirstWith(rankCounts, 3, rankIndex) && pairRankIndices == PairIndices(rankCounts, rankIndex)
    {
      var rankCount := rankCounts[rankIndex];
      if rankCount == 5 {
        bestFive := Some(rankIndex);
      } else if rankCount == 4 {
        bestFour := Some(rankIndex);
      } else if rankCount == 3 {
        if bestThree.None? {
          bestThree := Some(rankIndex);
        }
      } else if rankCount == 2 {
        pairRankIndices := pairRankIndices + [rankIndex];
      }
    }
  }

  /** Everything `eval_poker_hand` computes before its ladder of hands. */
  method GatherFacts(cards: seq<PlayingCard>) returns (facts: Facts)
    requires CountsFit(cards)
    ensures facts == FactsOf(cards)
  {
    var suitCounts, rankCounts, cardsBySuit, cardsByRank := GroupCards(cards);
    var counts: seq<nat> := rankCounts[..];
    RanksGroupedAreFacts(cards, rankCounts[..], cardsByRank);
    var flushSuit, flushCards := FindFlush(cards, suitCounts[..], cardsBySuit);
    var isFlush := flushSuit.Some?;
    var bestFive, bestFour, bestThree, pairRankIndices := ScanRanks(counts);
    var straightInfo := CheckStraight(cards);
    var isRoyalFlush := isFlush && straightInfo.isStraight && FirstNonzero(counts, 13) == Some(4);
    facts := Facts(cards, cardsByRank, isFlush, flushCards, bestFive, bestFour, bestThree,
                   pairRankIndices, straightInfo, isRoyalFlush);
  }

  /** `eval_poker_hand`: gathers the facts of the hand and walks the ladder. An empty hand is
      refused, as the high-card `unwrap` would panic on it. */
  method EvalPokerHand(cards: seq<PlayingCard>) returns (hand: PokerHand, scoring: seq<PlayingCard>)
    requires |cards| > 0 && CountsFit(cards)
    ensures (hand, scoring) == Evaluate(cards)
  {
    var facts := GatherFacts(cards);
    hand, scoring := Ladder(facts).0, Ladder(facts).1;
  }

  /** The part of the table the hand evaluation reads and writes. */
  class Table {
    /** The table's card slots; an empty slot holds no card. */
    var cardsOnTable: seq<Option<PlayingCard>>
    /** The hand the cards on the table make, if any. */
    var pokerHand: Option<PokerHand>

    constructor (slots: seq<Option<PlayingCard>>)
      ensures cardsOnTable == slots && pokerHand == None
    {
      cardsOnTable := slots;
      pokerHand := None;
    }

    /** `update_current_poker_hand`: the cards in the occupied slots, in slot order, are
        evaluated; with no card on the table there is no hand. */
    method UpdateCurrentPokerHand()
      requires CountsFit(Utils.Somes(cardsOnTable))
      modifies this
      ensures cardsOnTable == old(cardsOnTable)
      ensures var tableCards := Utils.Somes(cardsOnTable);
        pokerHand == if tableCards == [] then None else Some(Evaluate(tableCards).0)
      ensures pokerHand.None? <==> forall j :: 0 <= j < |cardsOnTable| ==> cardsOnTable[j].None?
    {
      var tableCards := Utils.Somes(cardsOnTable);
      Utils.SomesEmpty(cardsOnTable);
      if |tableCards| == 0 {
        pokerHand := None;
        return;
      }
      var hand, _ := EvalPokerHand(tableCards);
      pokerHand := Some(hand);
    }
  }
}
