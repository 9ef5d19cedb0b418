/** The 52-card deck: built in rank-major order, shuffled, and dealt from the end. */
module Decks {
  import opened Cards
  import opened Sequences

  /** The deck before shuffling, in the order the constructor's loops append the cards:
      for each rank (value 2 up to 14) the four suits in SuitOrder. */
  function OrderedDeck(): seq<Card>
  {
    seq(52, k requires 0 <= k < 52 => Card(SuitOrder[k % 4], k / 4 + 2))
  }

  /** Position of a card in OrderedDeck. */
  function DeckPosition(c: Card): int
  {
    (c.value - 2) * 4 + SuitIndex(c.suit)
  }

  /** The ordered deck holds every card with value 2..14 exactly once, and nothing else. */
  lemma OrderedDeckComplete()
    ensures |OrderedDeck()| == 52 && Distinct(OrderedDeck())
    ensures forall c :: c in OrderedDeck() <==> 2 <= c.value <= 14
  {
    var d := OrderedDeck();
    forall c: Card | 2 <= c.value <= 14 ensures c in d {
      var k := DeckPosition(c);
      assert 0 <= k < 52;
      assert k % 4 == SuitIndex(c.suit) && k / 4 == c.value - 2;
      assert d[k] == c;
    }
  }

  /** Any permutation of the ordered deck has 52 cards, one per suit and value 2..14. */
  lemma ShuffledDeckComplete(cards: seq<Card>)
    requires multiset(cards) == multiset(OrderedDeck())
    ensures |cards| == 52 && Distinct(cards)
    ensures forall c :: c in cards <==> 2 <= c.value <= 14
  {
    OrderedDeckComplete();
    assert |cards| == |multiset(cards)| == |multiset(OrderedDeck())| == 52;
    forall i, j | 0 <= i < j < |cards| ensures cards[i] != cards[j] {
      if cards[i] == cards[j] {
        TwoPositions(cards, i, j);
        DistinctOccursOnce(OrderedDeck(), cards[i]);
        assert false;
      }
    }
    forall c: Card ensures c in cards <==> c in OrderedDeck() {
      assert c in cards <==> c in multiset(cards);
      assert c in OrderedDeck() <==> c in multiset(OrderedDeck());
    }
  }

  /** Exchanging two positions keeps the multiset of elements. */
  lemma SwapKeepsCards(s: seq<Card>, a: nat, b: nat)
    requires a < |s| && b < |s|
    ensures multiset(s[a := s[b]][b := s[a]]) == multiset(s)
  {
    if a != b {
      var t := s[a := s[b]];
      assert multiset(t) == multiset(s) - multiset{s[a]} + multiset{s[b]};
      assert t[b] == s[b];
      assert multiset(t[b := s[a]]) == multiset(t) - multiset{s[b]} + multiset{s[a]};
    }
  }

  class Deck {
    var cards: seq<Card>

    /** Builds the 52 cards rank by rank, then shuffles them. The shuffle is the library's
        backward swap loop; `rolls` supplies its random draws, `rolls[k] % i` standing for
        the draw from 0..i-1 made when position i-1 is filled. */
    constructor (rolls: seq<nat>)
      requires |rolls| == 51
      ensures multiset(cards) == multiset(OrderedDeck())
      ensures |cards| == 52 && Distinct(cards)
      ensures forall c :: c in cards <==> 2 <= c.value <= 14
    {
      var built: seq<Card> := [];
      for r := 0 to RankCount
        invariant built == OrderedDeck()[..4 * r]
      {
        for s := 0 to |SuitOrder|
          invariant built == OrderedDeck()[..4 * r + s]
        {
          built := built + [Card(SuitOrder[s], r + 2)];
        }
      }
      assert built == OrderedDeck();
      var i := |built|;
      while i > 1
        invariant 1 <= i <= 52
        invariant |built| == 52 && multiset(built) == multiset(OrderedDeck())
      {
        var j := rolls[52 - i] % i;
        SwapKeepsCards(built, i - 1, j);
        built := built[i - 1 := built[j]][j := built[i - 1]];
        i := i - 1;
      }
      ShuffledDeckComplete(built);
      cards := built;
    }

    /** Removes and returns the last card; an empty deck yields None (the source's
        list removal fails there) and stays empty. */
    method DrawCard() returns (card: Option<Card>)
      modifies this`cards
      ensures old(cards) == [] ==> card == None && cards == []
      ensures old(cards) != [] ==>
        card == Some(old(cards)[|old(cards)| - 1]) && cards == old(cards)[..|old(cards)| - 1]
      ensures card.Some? ==> multiset(cards) + multiset{card.value} == multiset(old(cards))
    {
      if cards == [] {
        return None;
      }
      card := Some(cards[|cards| - 1]);
      assert cards == cards[..|cards| - 1] + [cards[|cards| - 1]];
      cards := cards[..|cards| - 1];
    }
  }
}
