/** Classification of a hand into one of ten categories, High Card (1) to Royal Flush (10).
    Every predicate works on a hand of any length, like the Java class; the
    characterisations in poker terms are stated for hands of five distinct cards. */
module HandEvaluator {
  import opened Cards
  import opened Sequences

  /** The card values, in hand order. */
  function CardValues(hand: seq<Card>): seq<int>
  {
    seq(|hand|, i requires 0 <= i < |hand| => hand[i].value)
  }

  /** The distinct suits present in the hand. */
  function SuitsOf(hand: seq<Card>): set<Suit>
  {
    set c | c in hand :: c.suit
  }

  /** How many cards of the hand carry value v. */
  function Multiplicity(hand: seq<Card>, v: int): nat
  {
    multiset(CardValues(hand))[v]
  }

  /** The value histogram: each value present maps to its number of cards. */
  function RankCounts(hand: seq<Card>): map<int, int>
  {
    var ms := multiset(CardValues(hand));
    map v | v in ms :: ms[v]
  }

  /** The values that occur exactly twice. */
  function PairedValues(hand: seq<Card>): set<int>
  {
    var counts := RankCounts(hand);
    set v | v in counts && counts[v] == 2
  }

  /** Each step of the sequence goes up by exactly one. */
  predicate StepsByOne(s: seq<int>)
  {
    forall i :: 1 <= i < |s| ==> s[i] - s[i - 1] == 1
  }

  predicate IsFlush(hand: seq<Card>)
  {
    |SuitsOf(hand)| == 1
  }

  predicate IsStraight(hand: seq<Card>)
  {
    StepsByOne(Sort(CardValues(hand)))
  }

  predicate IsStraightFlush(hand: seq<Card>)
  {
    IsFlush(hand) && IsStraight(hand)
  }

  predicate IsRoyalFlush(hand: seq<Card>)
  {
    IsStraightFlush(hand) && Sum(CardValues(hand)) == 60
  }

  predicate IsFourOfAKind(hand: seq<Card>)
  {
    4 in RankCounts(hand).Values
  }

  predicate IsFullHouse(hand: seq<Card>)
  {
    3 in RankCounts(hand).Values && 2 in RankCounts(hand).Values
  }

  predicate IsThreeOfAKind(hand: seq<Card>)
  {
    3 in RankCounts(hand).Values
  }

  predicate IsTwoPair(hand: seq<Card>)
  {
    |PairedValues(hand)| == 2
  }

  predicate IsPair(hand: seq<Card>)
  {
    2 in RankCounts(hand).Values
  }

  /** The category of a hand: the first predicate that holds, in descending precedence. */
  function EvaluateHand(hand: seq<Card>): (rank: int)
    ensures 1 <= rank <= 10
  {
    if IsRoyalFlush(hand) then 10
    else if IsStraightFlush(hand) then 9
    else if IsFourOfAKind(hand) then 8
    else if IsFullHouse(hand) then 7
    else if IsFlush(hand) then 6
    else if IsStraight(hand) then 5
    else if IsThreeOfAKind(hand) then 4
    else if IsTwoPair(hand) then 3
    else if IsPair(hand) then 2
    else 1
  }

  /** Builds the value histogram card by card. */
  method GetRankCounts(hand: seq<Card>) returns (counts: map<int, int>)
    ensures counts == RankCounts(hand)
    ensures forall v :: v in counts <==> Multiplicity(hand, v) > 0
    ensures forall v :: v in counts ==> counts[v] == Multiplicity(hand, v)
  {
    counts := map[];
    for k := 0 to |hand|
      invariant counts == RankCounts(hand[..k])
    {
      var v := hand[k].value;
      RankCountsStep(hand, k);
      if v in counts {
        counts := counts[v := counts[v] + 1];
      } else {
        counts := counts[v := 1];
      }
    }
    assert hand[..|hand|] == hand;
  }

  /** Adding the next card to the histogram increments its value's entry, from 0 when absent. */
  lemma RankCountsStep(hand: seq<Card>, k: nat)
    requires k < |hand|
    ensures var before := RankCounts(hand[..k]); var v := hand[k].value;
      RankCounts(hand[..k + 1]) == before[v := if v in before then before[v] + 1 else 1]
  {
    assert CardValues(hand[..k + 1]) == CardValues(hand[..k]) + [hand[k].value];
  }

  /** Walks the sorted values and fails at the first step that is not +1. */
  method CheckStraight(hand: seq<Card>) returns (straight: bool)
    ensures straight == IsStraight(hand)
  {
    var values := Sort(CardValues(hand));
    var i := 1;
    while i < |values|
      invariant 1 <= i
      invariant forall k :: 1 <= k < i && k < |values| ==> values[k] - values[k - 1] == 1
    {
      if values[i] - values[i - 1] != 1 {
        return false;
      }
      i := i + 1;
    }
    return true;
  }

  // ---------------------------------------------------------------------------
  // Shapes of a hand in poker terms, stated on value multiplicities.

  /** The five consecutive values starting at lo. */
  function Run5(lo: int): multiset<int>
  {
    multiset{lo, lo + 1, lo + 2, lo + 3, lo + 4}
  }

  ghost predicate IsRun(hand: seq<Card>)
  {
    exists lo :: multiset(CardValues(hand)) == Run5(lo)
  }

  ghost predicate HasQuads(hand: seq<Card>)
  {
    exists v :: Multiplicity(hand, v) == 4
  }

  ghost predicate HasTripsAndPair(hand: seq<Card>)
  {
    exists v, w :: Multiplicity(hand, v) == 3 && Multiplicity(hand, w) == 2
  }

  ghost predicate HasTripsOnly(hand: seq<Card>)
  {
    exists v :: Multiplicity(hand, v) == 3 && forall w :: w != v ==> Multiplicity(hand, w) <= 1
  }

  ghost predicate HasTwoPairs(hand: seq<Card>)
  {
    exists v, w :: v != w && Multiplicity(hand, v) == 2 && Multiplicity(hand, w) == 2
  }

  ghost predicate HasOnePairOnly(hand: seq<Card>)
  {
    exists v :: Multiplicity(hand, v) == 2 && forall w :: w != v ==> Multiplicity(hand, w) <= 1
  }

  ghost predicate AllValuesDistinct(hand: seq<Card>)
  {
    forall v :: Multiplicity(hand, v) <= 1
  }

  // ---------------------------------------------------------------------------
  // Bridges between the histogram and multiplicities.

  lemma CountPresent(hand: seq<Card>, k: int)
    requires k > 0
    ensures k in RankCounts(hand).Values <==> exists v :: Multiplicity(hand, v) == k
  {
    var counts := RankCounts(hand);
    if k in counts.Values {
      var v :| v in counts && counts[v] == k;
      assert Multiplicity(hand, v) == k;
    }
    if exists v :: Multiplicity(hand, v) == k {
      var v :| Multiplicity(hand, v) == k;
      assert v in counts;
      assert counts[v] in counts.Values;
    }
  }

  lemma PairedIsTwice(hand: seq<Card>, v: int)
    ensures v in PairedValues(hand) <==> Multiplicity(hand, v) == 2
  {
  }

  /** The evaluator accepts hands of any length: an empty hand has no suit, so it is no
      flush, but its (empty) run of values is a straight; a single card is one suit and a
      run of one, so it is a straight flush (royal only if its value alone sums to 60). */
  lemma ShortHands(c: Card)
    ensures EvaluateHand([]) == 5
    ensures EvaluateHand([c]) == if c.value == 60 then 10 else 9
  {
    assert SuitsOf([]) == {};
    assert SuitsOf([c]) == {c.suit};
    assert CardValues([c]) == [c.value];
    assert Sort([c.value]) == [c.value];
    assert Sum([c.value]) == c.value;
  }

  /** With every value at most once, no histogram entry reaches two. */
  lemma DistinctCounts(hand: seq<Card>)
    requires AllValuesDistinct(hand)
    ensures !IsFourOfAKind(hand) && !IsFullHouse(hand) && !IsThreeOfAKind(hand)
    ensures !IsTwoPair(hand) && !IsPair(hand)
  {
    CountPresent(hand, 2);
    CountPresent(hand, 3);
    CountPresent(hand, 4);
    assert PairedValues(hand) == {};
  }

  // ---------------------------------------------------------------------------
  // Straights.

  /** For five cards, the sorted values stepping by one means the values are five in a row. */
  lemma StraightIsRun(hand: seq<Card>)
    requires |hand| == 5
    ensures IsStraight(hand) <==> IsRun(hand)
  {
    if IsStraight(hand) {
      StraightToRun(hand);
    }
    if IsRun(hand) {
      var lo :| multiset(CardValues(hand)) == Run5(lo);
      RunToStraight(hand, lo);
    }
  }

  lemma StraightToRun(hand: seq<Card>)
    requires |hand| == 5 && IsStraight(hand)
    ensures multiset(CardValues(hand)) == Run5(Sort(CardValues(hand))[0])
  {
    var s := Sort(CardValues(hand));
    assert |s| == |multiset(s)| == |multiset(CardValues(hand))| == |CardValues(hand)|;
    StepsByOneRun(s);
  }

  lemma StepsByOneRun(s: seq<int>)
    requires |s| == 5 && StepsByOne(s)
    ensures multiset(s) == Run5(s[0])
  {
    assert s[1] == s[0] + 1 && s[2] == s[1] + 1 && s[3] == s[2] + 1 && s[4] == s[3] + 1;
    assert s == [s[0], s[0] + 1, s[0] + 2, s[0] + 3, s[0] + 4];
  }

  /** The five values of a run, in ascending order. */
  function RunSeq(lo: int): (r: seq<int>)
    ensures Sorted(r) && StepsByOne(r) && multiset(r) == Run5(lo)
  {
    [lo, lo + 1, lo + 2, lo + 3, lo + 4]
  }

  lemma RunToStraight(hand: seq<Card>, lo: int)
    requires multiset(CardValues(hand)) == Run5(lo)
    ensures IsStraight(hand)
  {
    var s := Sort(CardValues(hand));
    var r := RunSeq(lo);
    SortedUnique(s, r);
  }

  /** A straight never repeats a value, whatever the hand's length. */
  lemma StraightHasDistinctValues(hand: seq<Card>)
    requires IsStraight(hand)
    ensures AllValuesDistinct(hand)
  {
    var s := Sort(CardValues(hand));
    forall v ensures Multiplicity(hand, v) <= 1 {
      IncreasingOccursOnce(s, v);
    }
  }

  lemma SingletonMembers<T>(s: set<T>, x: T, y: T)
    requires |s| == 1 && x in s && y in s
    ensures x == y
  {
    if x != y {
      assert {x, y} <= s;
      assert |{x, y}| == 2;
      SubsetCard({x, y}, s);
    }
  }

  lemma {:induction false} SubsetCard<T>(a: set<T>, b: set<T>)
    requires a <= b
    ensures |a| <= |b|
  {
    assert b == a + (b - a);
  }

  /** Among distinct cards of one suit, no value repeats. */
  lemma FlushHasDistinctValues(hand: seq<Card>)
    requires IsFlush(hand) && Distinct(hand)
    ensures AllValuesDistinct(hand)
  {
    forall v ensures Multiplicity(hand, v) <= 1 {
      if Multiplicity(hand, v) >= 2 {
        var i, j := RepeatedAt(CardValues(hand), v);
        SingletonMembers(SuitsOf(hand), hand[i].suit, hand[j].suit);
        assert false;
      }
    }
  }

  /** With no value repeated, only flushes and straights can lift a hand above High Card. */
  lemma DistinctValuesRank(hand: seq<Card>)
    requires AllValuesDistinct(hand)
    ensures EvaluateHand(hand) ==
      if IsFlush(hand) && IsStraight(hand) then (if Sum(CardValues(hand)) == 60 then 10 else 9)
      else if IsFlush(hand) then 6
      else if IsStraight(hand) then 5
      else 1
  {
    DistinctCounts(hand);
  }

  lemma RunSum(hand: seq<Card>, lo: int)
    requires multiset(CardValues(hand)) == Run5(lo)
    ensures Sum(CardValues(hand)) == 5 * lo + 10
  {
    var r := RunSeq(lo);
    SumPermutation(CardValues(hand), r);
    assert Sum(r[4..]) == lo + 4;
    assert Sum(r[3..]) == lo + 3 + Sum(r[4..]);
    assert Sum(r[2..]) == lo + 2 + Sum(r[3..]);
    assert Sum(r[1..]) == lo + 1 + Sum(r[2..]);
  }

  // ---------------------------------------------------------------------------
  // Only four suits: five distinct cards cannot share one value.

  lemma {:induction false} DistinctSuitsCount(hand: seq<Card>)
    requires forall i, j :: 0 <= i < j < |hand| ==> hand[i].suit != hand[j].suit
    ensures |SuitsOf(hand)| == |hand|
  {
    if hand != [] {
      var init := hand[..|hand| - 1];
      DistinctSuitsCount(init);
      assert SuitsOf(hand) == SuitsOf(init) + {hand[|hand| - 1].suit};
      assert hand[|hand| - 1].suit !in SuitsOf(init);
    }
  }

  lemma AllSuits(s: set<Suit>)
    ensures |s| <= 4
  {
    var all := {Hearts, Diamonds, Clubs, Spades};
    forall x | x in s ensures x in all {
      match x
      case Hearts =>
      case Diamonds =>
      case Clubs =>
      case Spades =>
    }
    SubsetCard(s, all);
  }

  lemma NoFiveOfAValue(hand: seq<Card>, v: int)
    requires Distinct(hand) && |hand| == 5
    ensures Multiplicity(hand, v) < 5
  {
    var vs := CardValues(hand);
    if Multiplicity(hand, v) >= 5 {
      forall i | 0 <= i < |vs| ensures vs[i] == v {
        if vs[i] != v {
          assert vs[i] in multiset(vs);
          TwoOccurrencesBound(vs, v, vs[i]);
        }
      }
      forall i, j | 0 <= i < j < |hand| ensures hand[i].suit != hand[j].suit {
        assert vs[i] == v && vs[j] == v;
      }
      DistinctSuitsCount(hand);
      AllSuits(SuitsOf(hand));
      assert false;
    }
  }

  // ---------------------------------------------------------------------------
  // What each category means, for five distinct cards. Each "Meaning" lemma
  // rests on facts about the individual predicates, proved separately.

  lemma RoyalFlushMeaning(hand: seq<Card>)
    requires |hand| == 5
    ensures EvaluateHand(hand) == 10 <==> IsFlush(hand) && multiset(CardValues(hand)) == Run5(10)
  {
    RoyalFlushShape(hand);
  }

  lemma RoyalFlushShape(hand: seq<Card>)
    requires |hand| == 5
    ensures IsRoyalFlush(hand) <==> IsFlush(hand) && multiset(CardValues(hand)) == Run5(10)
  {
    if IsRoyalFlush(hand) {
      StraightToRun(hand);
      RunSum(hand, Sort(CardValues(hand))[0]);
    }
    if IsFlush(hand) && multiset(CardValues(hand)) == Run5(10) {
      RunToStraight(hand, 10);
      RunSum(hand, 10);
    }
  }

  lemma StraightFlushMeaning(hand: seq<Card>)
    requires |hand| == 5
    ensures EvaluateHand(hand) == 9 <==>
      IsFlush(hand) && exists lo :: lo != 10 && multiset(CardValues(hand)) == Run5(lo)
  {
    assert EvaluateHand(hand) == 9 <==> IsStraightFlush(hand) && !IsRoyalFlush(hand);
    StraightFlushShape(hand);
  }

  lemma StraightFlushShape(hand: seq<Card>)
    requires |hand| == 5
    ensures IsStraightFlush(hand) && !IsRoyalFlush(hand) <==>
      IsFlush(hand) && exists lo :: lo != 10 && multiset(CardValues(hand)) == Run5(lo)
  {
    if IsStraightFlush(hand) && !IsRoyalFlush(hand) {
      StraightToRun(hand);
      var lo := Sort(CardValues(hand))[0];
      RunSum(hand, lo);
      assert lo != 10 && multiset(CardValues(hand)) == Run5(lo);
    }
    if IsFlush(hand) && exists lo :: lo != 10 && multiset(CardValues(hand)) == Run5(lo) {
      var lo :| lo != 10 && multiset(CardValues(hand)) == Run5(lo);
      RunToStraight(hand, lo);
      RunSum(hand, lo);
    }
  }

  lemma FourOfAKindMeaning(hand: seq<Card>)
    ensures EvaluateHand(hand) == 8 <==> HasQuads(hand)
  {
    FourOfAKindShape(hand);
  }

  lemma FourOfAKindShape(hand: seq<Card>)
    ensures IsFourOfAKind(hand) <==> HasQuads(hand)
    ensures IsFourOfAKind(hand) ==> !IsStraight(hand)
  {
    CountPresent(hand, 4);
    if IsFourOfAKind(hand) && IsStraight(hand) {
      StraightHasDistinctValues(hand);
    }
  }

  lemma FullHouseMeaning(hand: seq<Card>)
    requires |hand| == 5
    ensures EvaluateHand(hand) == 7 <==> HasTripsAndPair(hand)
  {
    FullHouseShape(hand);
  }

  lemma FullHouseShape(hand: seq<Card>)
    requires |hand| == 5
    ensures IsFullHouse(hand) <==> HasTripsAndPair(hand)
    ensures IsFullHouse(hand) ==> !IsFourOfAKind(hand) && !IsStraight(hand)
  {
    CountPresent(hand, 2);
    CountPresent(hand, 3);
    CountPresent(hand, 4);
    if HasTripsAndPair(hand) {
      var v, w :| Multiplicity(hand, v) == 3 && Multiplicity(hand, w) == 2;
      if IsStraight(hand) {
        StraightHasDistinctValues(hand);
      }
      if IsFourOfAKind(hand) {
        var u :| Multiplicity(hand, u) == 4;
        TwoOccurrencesBound(CardValues(hand), u, v);
      }
    }
  }

  lemma FlushMeaning(hand: seq<Card>)
    requires |hand| == 5 && Distinct(hand)
    ensures EvaluateHand(hand) == 6 <==> IsFlush(hand) && !IsRun(hand)
  {
    StraightIsRun(hand);
    FlushShape(hand);
  }

  lemma FlushShape(hand: seq<Card>)
    requires Distinct(hand)
    ensures IsFlush(hand) ==> !IsFourOfAKind(hand) && !IsFullHouse(hand)
  {
    if IsFlush(hand) {
      FlushHasDistinctValues(hand);
      DistinctCounts(hand);
    }
  }

  lemma StraightMeaning(hand: seq<Card>)
    requires |hand| == 5
    ensures EvaluateHand(hand) == 5 <==> !IsFlush(hand) && IsRun(hand)
  {
    StraightIsRun(hand);
    StraightShape(hand);
  }

  lemma StraightShape(hand: seq<Card>)
    ensures IsStraight(hand) ==> !IsFourOfAKind(hand) && !IsFullHouse(hand)
  {
    if IsStraight(hand) {
      StraightHasDistinctValues(hand);
      DistinctCounts(hand);
    }
  }

  /** A hand with a repeated value is neither a straight nor, with distinct cards, a flush. */
  lemma RepeatExcludesFlushAndStraight(hand: seq<Card>, v: int)
    requires Distinct(hand) && Multiplicity(hand, v) >= 2
    ensures !IsFlush(hand) && !IsStraight(hand)
  {
    if IsFlush(hand) {
      FlushHasDistinctValues(hand);
    }
    if IsStraight(hand) {
      StraightHasDistinctValues(hand);
    }
  }

  lemma ThreeOfAKindMeaning(hand: seq<Card>)
    requires |hand| == 5 && Distinct(hand)
    ensures EvaluateHand(hand) == 4 <==> HasTripsOnly(hand)
  {
    ThreeOfAKindShape(hand);
  }

  lemma ThreeOfAKindShape(hand: seq<Card>)
    requires |hand| == 5 && Distinct(hand)
    ensures IsThreeOfAKind(hand) && !IsFullHouse(hand) && !IsFourOfAKind(hand) ==> HasTripsOnly(hand)
    ensures HasTripsOnly(hand) ==>
      IsThreeOfAKind(hand) && !IsFullHouse(hand) && !IsFourOfAKind(hand) &&
      !IsFlush(hand) && !IsStraight(hand)
  {
    CountPresent(hand, 2);
    CountPresent(hand, 3);
    CountPresent(hand, 4);
    var vs := CardValues(hand);
    if IsThreeOfAKind(hand) && !IsFullHouse(hand) && !IsFourOfAKind(hand) {
      var v :| Multiplicity(hand, v) == 3;
      forall w | w != v ensures Multiplicity(hand, w) <= 1 {
        TwoOccurrencesBound(vs, v, w);
      }
    }
    if HasTripsOnly(hand) {
      var v :| Multiplicity(hand, v) == 3 && forall w :: w != v ==> Multiplicity(hand, w) <= 1;
      RepeatExcludesFlushAndStraight(hand, v);
    }
  }

  lemma TwoPairMeaning(hand: seq<Card>)
    requires |hand| == 5 && Distinct(hand)
    ensures EvaluateHand(hand) == 3 <==> HasTwoPairs(hand)
  {
    if IsTwoPair(hand) {
      TwoPairFromPredicate(hand);
    }
    if HasTwoPairs(hand) {
      TwoPairShape(hand);
    }
  }

  lemma TwoPairFromPredicate(hand: seq<Card>)
    requires IsTwoPair(hand)
    ensures HasTwoPairs(hand)
  {
    var paired := PairedValues(hand);
    var v :| v in paired;
    assert |paired - {v}| == 1;
    var w :| w in paired - {v};
    PairedIsTwice(hand, v);
    PairedIsTwice(hand, w);
  }

  lemma TwoPairShape(hand: seq<Card>)
    requires |hand| == 5 && Distinct(hand) && HasTwoPairs(hand)
    ensures IsTwoPair(hand) && !IsThreeOfAKind(hand) && !IsFourOfAKind(hand)
    ensures !IsFlush(hand) && !IsStraight(hand)
  {
    var v, w :| v != w && Multiplicity(hand, v) == 2 && Multiplicity(hand, w) == 2;
    RepeatExcludesFlushAndStraight(hand, v);
    TwoPairCounted(hand, v, w);
    TwoPairNoTrips(hand, v, w);
  }

  /** Two values occurring twice in five cards make the two-pair test hold. */
  lemma TwoPairCounted(hand: seq<Card>, v: int, w: int)
    requires |hand| == 5 && v != w && Multiplicity(hand, v) == 2 && Multiplicity(hand, w) == 2
    ensures IsTwoPair(hand)
  {
    OnlyTwoPairs(hand, v, w);
    assert |{v, w}| == 2;
  }

  /** Besides two pairs, five cards leave room for no value occurring three or four times. */
  lemma TwoPairNoTrips(hand: seq<Card>, v: int, w: int)
    requires |hand| == 5 && v != w && Multiplicity(hand, v) == 2 && Multiplicity(hand, w) == 2
    ensures !IsThreeOfAKind(hand) && !IsFourOfAKind(hand)
  {
    CountPresent(hand, 3);
    CountPresent(hand, 4);
    forall u | u != v && u != w ensures Multiplicity(hand, u) <= 1 {
      ThreeOccurrencesBound(CardValues(hand), u, v, w);
    }
  }

  /** In five cards, two values occurring twice are the only ones that do. */
  lemma OnlyTwoPairs(hand: seq<Card>, v: int, w: int)
    requires |hand| == 5 && v != w && Multiplicity(hand, v) == 2 && Multiplicity(hand, w) == 2
    ensures PairedValues(hand) == {v, w}
  {
    var paired := PairedValues(hand);
    forall u ensures u in paired <==> u in {v, w} {
      PairedIsTwice(hand, u);
      if u != v && u != w {
        ThreeOccurrencesBound(CardValues(hand), u, v, w);
      }
    }
  }

  lemma PairMeaning(hand: seq<Card>)
    requires |hand| == 5 && Distinct(hand)
    ensures EvaluateHand(hand) == 2 <==> HasOnePairOnly(hand)
  {
    if EvaluateHand(hand) == 2 {
      PairShape(hand);
    }
    if HasOnePairOnly(hand) {
      OnePairOnlyShape(hand);
    }
  }

  lemma PairShape(hand: seq<Card>)
    requires |hand| == 5
    requires IsPair(hand) && !IsTwoPair(hand) && !IsThreeOfAKind(hand) && !IsFourOfAKind(hand)
    ensures HasOnePairOnly(hand)
  {
    CountPresent(hand, 2);
    CountPresent(hand, 3);
    CountPresent(hand, 4);
    var vs := CardValues(hand);
    var v :| Multiplicity(hand, v) == 2;
    forall w | w != v ensures Multiplicity(hand, w) <= 1 {
      TwoOccurrencesBound(vs, v, w);
      if Multiplicity(hand, w) == 2 {
        OnlyTwoPairs(hand, v, w);
      }
    }
  }

  lemma OnePairOnlyShape(hand: seq<Card>)
    requires Distinct(hand) && HasOnePairOnly(hand)
    ensures IsPair(hand) && !IsTwoPair(hand) && !IsThreeOfAKind(hand) && !IsFourOfAKind(hand)
    ensures !IsFlush(hand) && !IsStraight(hand)
  {
    var v :| Multiplicity(hand, v) == 2 && forall w :: w != v ==> Multiplicity(hand, w) <= 1;
    RepeatExcludesFlushAndStraight(hand, v);
    OnePairCounts(hand, v);
  }

  lemma OnePairCounts(hand: seq<Card>, v: int)
    requires Multiplicity(hand, v) == 2 && forall w :: w != v ==> Multiplicity(hand, w) <= 1
    ensures IsPair(hand) && !IsTwoPair(hand) && !IsThreeOfAKind(hand) && !IsFourOfAKind(hand)
  {
    CountPresent(hand, 2);
    CountPresent(hand, 3);
    CountPresent(hand, 4);
    var paired := PairedValues(hand);
    forall u ensures u in paired <==> u == v {
      PairedIsTwice(hand, u);
    }
    assert paired == {v};
  }

  lemma HighCardMeaning(hand: seq<Card>)
    requires |hand| == 5 && Distinct(hand)
    ensures EvaluateHand(hand) == 1 <==> AllValuesDistinct(hand) && !IsFlush(hand) && !IsRun(hand)
  {
    StraightIsRun(hand);
    if EvaluateHand(hand) == 1 {
      HighCardShape(hand);
    }
    if AllValuesDistinct(hand) {
      DistinctCounts(hand);
    }
  }

  lemma HighCardShape(hand: seq<Card>)
    requires |hand| == 5 && Distinct(hand)
    requires !IsPair(hand) && !IsThreeOfAKind(hand) && !IsFourOfAKind(hand)
    ensures AllValuesDistinct(hand)
  {
    CountPresent(hand, 2);
    CountPresent(hand, 3);
    CountPresent(hand, 4);
    forall v ensures Multiplicity(hand, v) <= 1 {
      OccurrencesBound(CardValues(hand), v);
      NoFiveOfAValue(hand, v);
    }
  }

  /** Ace is only ever high: A-2-3-4-5 ranks as a plain flush or as High Card. */
  lemma LowAceIsNoStraight(hand: seq<Card>)
    requires multiset(CardValues(hand)) == multiset{14, 2, 3, 4, 5}
    ensures !IsStraight(hand)
    ensures EvaluateHand(hand) == if IsFlush(hand) then 6 else 1
  {
    LowAceFacts(hand);
    DistinctCounts(hand);
  }

  lemma LowAceFacts(hand: seq<Card>)
    requires multiset(CardValues(hand)) == multiset{14, 2, 3, 4, 5}
    ensures !IsStraight(hand) && AllValuesDistinct(hand)
  {
    LowAceNotStraight(hand);
    LowAceDistinct(hand);
  }

  lemma LowAceNotStraight(hand: seq<Card>)
    requires multiset(CardValues(hand)) == multiset{14, 2, 3, 4, 5}
    ensures !IsStraight(hand)
  {
    var ordered := LowAceOrder();
    SortedUnique(Sort(CardValues(hand)), ordered);
    assert ordered[4] - ordered[3] != 1;
  }

  lemma LowAceDistinct(hand: seq<Card>)
    requires multiset(CardValues(hand)) == multiset{14, 2, 3, 4, 5}
    ensures AllValuesDistinct(hand)
  {
    var ordered := LowAceOrder();
    assert forall i :: 1 <= i < |ordered| ==> ordered[i - 1] < ordered[i];
    forall v ensures Multiplicity(hand, v) <= 1 {
      IncreasingOccursOnce(ordered, v);
    }
  }

  /** A-2-3-4-5 in ascending order, Ace counted high. */
  function LowAceOrder(): (r: seq<int>)
    ensures r == [2, 3, 4, 5, 14]
    ensures Sorted(r) && multiset(r) == multiset{14, 2, 3, 4, 5}
  {
    [2, 3, 4, 5, 14]
  }

  // ---------------------------------------------------------------------------
  // The category does not depend on the order of the cards.

  /** Taking one card out of a hand takes its value out of the values. */
  lemma ValuesRemove(b: seq<Card>, j: nat)
    requires j < |b|
    ensures multiset(CardValues(b)) == multiset(CardValues(b[..j] + b[j + 1..])) + multiset{b[j].value}
  {
    var vs := CardValues(b);
    assert CardValues(b[..j] + b[j + 1..]) == vs[..j] + vs[j + 1..];
    assert vs == vs[..j] + [vs[j]] + vs[j + 1..];
  }

  /** Matching the first card of one hand with a card of the other leaves two hands
      with the same cards. */
  lemma MatchFirst(a: seq<Card>, b: seq<Card>, j: nat)
    requires multiset(a) == multiset(b)
    requires 0 < |a| && j < |b| && b[j] == a[0]
    ensures multiset(a[1..]) == multiset(b[..j] + b[j + 1..])
  {
    assert a[..0] + a[1..] == a[1..];
    RemoveAt(a, 0);
    RemoveAt(b, j);
  }

  /** Putting the matched card back on both sides keeps the values equal. */
  lemma ValuesMatchFirst(a: seq<Card>, b: seq<Card>, j: nat)
    requires 0 < |a| && j < |b| && b[j] == a[0]
    requires multiset(CardValues(a[1..])) == multiset(CardValues(b[..j] + b[j + 1..]))
    ensures multiset(CardValues(a)) == multiset(CardValues(b))
  {
    assert a[..0] + a[1..] == a[1..];
    ValuesRemove(a, 0);
    ValuesRemove(b, j);
  }

  lemma {:induction false} ValuesPermutation(a: seq<Card>, b: seq<Card>)
    requires multiset(a) == multiset(b)
    ensures multiset(CardValues(a)) == multiset(CardValues(b))
    decreases |a|
  {
    if a != [] {
      var j :| 0 <= j < |b| && b[j] == a[0] by {
        assert a[0] in multiset(b);
      }
      MatchFirst(a, b, j);
      ValuesPermutation(a[1..], b[..j] + b[j + 1..]);
      ValuesMatchFirst(a, b, j);
    }
  }

  /** Every test of the evaluator gives the same answer on a reordering of the hand. */
  lemma SameTests(a: seq<Card>, b: seq<Card>)
    requires multiset(a) == multiset(b)
    ensures IsRoyalFlush(a) == IsRoyalFlush(b) && IsStraightFlush(a) == IsStraightFlush(b)
    ensures IsFourOfAKind(a) == IsFourOfAKind(b) && IsFullHouse(a) == IsFullHouse(b)
    ensures IsFlush(a) == IsFlush(b) && IsStraight(a) == IsStraight(b)
    ensures IsThreeOfAKind(a) == IsThreeOfAKind(b) && IsTwoPair(a) == IsTwoPair(b) && IsPair(a) == IsPair(b)
  {
    ValuesPermutation(a, b);
    SortedUnique(Sort(CardValues(a)), Sort(CardValues(b)));
    SumPermutation(CardValues(a), CardValues(b));
    forall c ensures c in a <==> c in b {
      assert c in a <==> c in multiset(a);
      assert c in b <==> c in multiset(b);
    }
    assert SuitsOf(a) == SuitsOf(b);
  }

  lemma EvaluateHandPermutation(a: seq<Card>, b: seq<Card>)
    requires multiset(a) == multiset(b)
    ensures EvaluateHand(a) == EvaluateHand(b)
  {
    SameTests(a, b);
  }
}
