/** A player: name, hand, chip stack, fold flag and the amount put in during the
    current betting, with the small operations the game loop applies to them. */
module Players {
  import opened Cards
  import opened Decks
  import opened HandEvaluator

  /** The mutable fields of a player, as a value. */
  datatype PlayerState = PlayerState(hand: seq<Card>, chips: int, folded: bool, currentBet: int)

  /** What replacing cards leaves behind: the hand, the deck, and whether every
      requested draw succeeded (a draw from an empty deck aborts the operation). */
  datatype Replacement = Replacement(hand: seq<Card>, deck: seq<Card>, completed: bool)

  /** One requested index: 1-based, ignored unless it names a slot of the hand;
      a named slot receives the card drawn from the end of the deck. */
  function ReplaceStep(r: Replacement, index: int): Replacement
  {
    if !r.completed || !(0 < index <= |r.hand|) then r
    else if r.deck == [] then r.(completed := false)
    else Replacement(r.hand[index - 1 := r.deck[|r.deck| - 1]], r.deck[..|r.deck| - 1], true)
  }

  /** The indices applied in order, starting from the given hand and deck. */
  function Replace(hand: seq<Card>, deck: seq<Card>, indices: seq<int>): Replacement
  {
    if indices == [] then Replacement(hand, deck, true)
    else ReplaceStep(Replace(hand, deck, indices[..|indices| - 1]), indices[|indices| - 1])
  }

  /** How many of the indices name a slot of a hand of the given size. */
  function InRangeCount(indices: seq<int>, size: int): nat
  {
    if indices == [] then 0
    else InRangeCount(indices[..|indices| - 1], size)
         + (if 0 < indices[|indices| - 1] <= size then 1 else 0)
  }

  /** Replacing never changes the hand's size, and the deck only loses cards from its end:
      one per in-range index, as long as cards remain; the operation completes exactly
      when the deck holds enough cards for every in-range index. */
  lemma {:induction false} ReplaceDraws(hand: seq<Card>, deck: seq<Card>, indices: seq<int>)
    ensures var r := Replace(hand, deck, indices);
      && |r.hand| == |hand|
      && |r.deck| <= |deck| && r.deck == deck[..|r.deck|]
      && (r.completed <==> InRangeCount(indices, |hand|) <= |deck|)
      && (r.completed ==> |deck| - |r.deck| == InRangeCount(indices, |hand|))
      && (!r.completed ==> r.deck == [])
  {
    if indices != [] {
      ReplaceDraws(hand, deck, indices[..|indices| - 1]);
    }
  }

  /** A slot that no index names keeps its card. */
  lemma {:induction false} ReplaceKeepsUnnamed(hand: seq<Card>, deck: seq<Card>, indices: seq<int>, k: int)
    requires 0 <= k < |hand| && k + 1 !in indices
    ensures k < |Replace(hand, deck, indices).hand|
    ensures Replace(hand, deck, indices).hand[k] == hand[k]
  {
    if indices != [] {
      var front := indices[..|indices| - 1];
      assert k + 1 !in front;
      ReplaceKeepsUnnamed(hand, deck, front, k);
      ReplaceDraws(hand, deck, front);
    }
  }

  /** After a completed replacement, every named slot holds one of the cards drawn off the deck. */
  lemma {:induction false} ReplaceFillsNamed(hand: seq<Card>, deck: seq<Card>, indices: seq<int>, k: int)
    requires 0 <= k < |hand| && k + 1 in indices
    requires Replace(hand, deck, indices).completed
    ensures var r := Replace(hand, deck, indices);
      |r.deck| <= |deck| && k < |r.hand| && r.hand[k] in deck[|r.deck|..]
  {
    var front := indices[..|indices| - 1];
    var last := indices[|indices| - 1];
    var r0 := Replace(hand, deck, front);
    var r := Replace(hand, deck, indices);
    ReplaceDraws(hand, deck, front);
    ReplaceDraws(hand, deck, indices);
    assert r0.completed;
    if last == k + 1 {
      assert r.hand[k] == r0.deck[|r0.deck| - 1] == deck[|r.deck|];
    } else {
      assert k + 1 in front by {
        var t :| 0 <= t < |indices| && indices[t] == k + 1;
        assert t < |indices| - 1 && front[t] == k + 1;
      }
      ReplaceFillsNamed(hand, deck, front, k);
      assert r0.hand[k] in deck[|r0.deck|..];
      assert r.hand[k] == r0.hand[k];
      assert deck[|r0.deck|..] == deck[|r.deck|..][|r0.deck| - |r.deck|..];
    }
  }

  /** No card is duplicated: the hand and the deck together afterwards hold a sub-multiset
      of what they held before (a drawn card that is overwritten again is discarded). */
  lemma {:induction false} ReplaceLosesNoCardTwice(hand: seq<Card>, deck: seq<Card>, indices: seq<int>)
    ensures var r := Replace(hand, deck, indices);
      multiset(r.hand) + multiset(r.deck) <= multiset(hand) + multiset(deck)
  {
    if indices != [] {
      var r0 := Replace(hand, deck, indices[..|indices| - 1]);
      var index := indices[|indices| - 1];
      ReplaceLosesNoCardTwice(hand, deck, indices[..|indices| - 1]);
      if r0.completed && 0 < index <= |r0.hand| && r0.deck != [] {
        var top := r0.deck[|r0.deck| - 1];
        var rest := r0.deck[..|r0.deck| - 1];
        assert r0.deck == rest + [top];
        assert multiset(r0.deck) == multiset(rest) + multiset{top};
        var old_card := r0.hand[index - 1];
        assert multiset(r0.hand[index - 1 := top])
          == multiset(r0.hand) - multiset{old_card} + multiset{top};
      }
    }
  }

  /** The last index of a prefix is one more step. */
  lemma ReplaceNext(hand: seq<Card>, deck: seq<Card>, indices: seq<int>, k: nat)
    requires k < |indices|
    ensures Replace(hand, deck, indices[..k + 1]) == ReplaceStep(Replace(hand, deck, indices[..k]), indices[k])
  {
    assert indices[..k + 1][..k] == indices[..k];
  }

  /** Once a draw has failed, later indices change nothing. */
  lemma {:induction false} ReplaceStopped(hand: seq<Card>, deck: seq<Card>, indices: seq<int>, k: nat)
    requires k <= |indices|
    requires !Replace(hand, deck, indices[..k]).completed
    ensures Replace(hand, deck, indices) == Replace(hand, deck, indices[..k])
  {
    if k < |indices| {
      var front := indices[..|indices| - 1];
      assert front[..k] == indices[..k];
      ReplaceStopped(hand, deck, front, k);
    } else {
      assert indices[..k] == indices;
    }
  }

  class Player {
    const name: string
    var hand: seq<Card>
    var chips: int
    var folded: bool
    var currentBet: int

    /** The player's fields as a value. */
    function State(): PlayerState
      reads this
    {
      PlayerState(hand, chips, folded, currentBet)
    }

    constructor (name: string, chips: int)
      ensures this.name == name
      ensures State() == PlayerState([], chips, false, 0)
    {
      this.name := name;
      this.chips := chips;
      hand := [];
      folded := false;
      currentBet := 0;
    }

    /** Empties the hand, then draws five cards one by one from the end of the deck.
        A draw from an empty deck aborts (ok == false), leaving the cards drawn so far. */
    method DrawHand(deck: Deck) returns (ok: bool)
      modifies this`hand, deck`cards
      ensures var n := |old(deck.cards)|; var k := if n < 5 then n else 5;
        && (ok <==> n >= 5)
        && |hand| == k
        && deck.cards == old(deck.cards)[..n - k]
        && (forall i :: 0 <= i < k ==> hand[i] == old(deck.cards)[n - 1 - i])
      ensures multiset(hand) + multiset(deck.cards) == multiset(old(deck.cards))
    {
      hand := [];
      for i := 0 to 5
        invariant i <= |old(deck.cards)|
        invariant |hand| == i && deck.cards == old(deck.cards)[..|old(deck.cards)| - i]
        invariant forall t :: 0 <= t < i ==> hand[t] == old(deck.cards)[|old(deck.cards)| - 1 - t]
        invariant multiset(hand) + multiset(deck.cards) == multiset(old(deck.cards))
      {
        var card := deck.DrawCard();
        if card.None? {
          return false;
        }
        hand := hand + [card.value];
      }
      return true;
    }

    /** Overwrites slot index-1 with a freshly drawn card for every index in 1..|hand|,
        in order; other indices are ignored. A draw from an empty deck aborts (ok == false). */
    method ReplaceCards(indices: seq<int>, deck: Deck) returns (ok: bool)
      modifies this`hand, deck`cards
      ensures Replacement(hand, deck.cards, ok) == Replace(old(hand), old(deck.cards), indices)
    {
      for k := 0 to |indices|
        invariant Replacement(hand, deck.cards, true) == Replace(old(hand), old(deck.cards), indices[..k])
      {
        ReplaceNext(old(hand), old(deck.cards), indices, k);
        var index := indices[k];
        if 0 < index <= |hand| {
          var card := deck.DrawCard();
          if card.None? {
            ReplaceStopped(old(hand), old(deck.cards), indices, k + 1);
            return false;
          }
          hand := hand[index - 1 := card.value];
        }
      }
      assert indices[..|indices|] == indices;
      return true;
    }

    predicate HasEnoughChips(amount: int)
      reads this
    {
      chips >= amount
    }

    /** Moves the amount from the stack into the current bet. */
    method Bet(amount: int)
      modifies this`chips, this`currentBet
      ensures chips == old(chips) - amount && currentBet == old(currentBet) + amount
      ensures chips + currentBet == old(chips + currentBet)
    {
      chips := chips - amount;
      currentBet := currentBet + amount;
    }

    method Fold()
      modifies this`folded
      ensures folded
    {
      folded := true;
    }

    /** Adds the winnings to the stack; nothing else changes. */
    method Win(amount: int)
      modifies this`chips
      ensures chips == old(chips) + amount
    {
      chips := chips + amount;
    }

    /** Clears the fold flag, the current bet and the hand; the stack is kept. */
    method ResetForNewRound()
      modifies this`folded, this`currentBet, this`hand
      ensures State() == PlayerState([], old(chips), false, 0)
    {
      folded := false;
      currentBet := 0;
      hand := [];
    }

    /** The category of the current hand. */
    method HandStrength() returns (strength: int)
      ensures strength == EvaluateHand(hand) && 1 <= strength <= 10
    {
      strength := EvaluateHand(hand);
    }
  }
}
