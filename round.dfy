/** What the game loop does around the showdown: naming hand categories for the results,
    and the end of a round, which resets every player and removes those without chips. */
module Round {
  import opened Cards
  import opened Sequences
  import opened HandEvaluator
  import opened Players
  import opened Betting
  import opened Showdown

  /** The display name of a hand category; anything outside 2..10 is "High Card". */
  function HandName(strength: int): (name: string)
    ensures name == "High Card" <==> !(2 <= strength <= 10)
  {
    match strength
    case 10 => "Royal Flush"
    case 9 => "Straight Flush"
    case 8 => "Four of a Kind"
    case 7 => "Full House"
    case 6 => "Flush"
    case 5 => "Straight"
    case 4 => "Three of a Kind"
    case 3 => "Two Pair"
    case 2 => "Pair"
    case _ => "High Card"
  }

  /** The category a name stands for, 0 for a string that names none. */
  function CategoryOf(name: string): (strength: int)
    ensures 0 <= strength <= 10
    ensures strength != 0 ==> HandName(strength) == name
  {
    if name == "Royal Flush" then 10
    else if name == "Straight Flush" then 9
    else if name == "Four of a Kind" then 8
    else if name == "Full House" then 7
    else if name == "Flush" then 6
    else if name == "Straight" then 5
    else if name == "Three of a Kind" then 4
    else if name == "Two Pair" then 3
    else if name == "Pair" then 2
    else if name == "High Card" then 1
    else 0
  }

  /** Every category the evaluator returns has its own name: the name gives the category back. */
  lemma HandNameRoundTrip(strength: int)
    requires 1 <= strength <= 10
    ensures CategoryOf(HandName(strength)) == strength
  {
  }

  /** Two hands are announced under the same name exactly when they fall in the same category. */
  lemma SameNameSameCategory(a: seq<Card>, b: seq<Card>)
    ensures HandName(EvaluateHand(a)) == HandName(EvaluateHand(b)) <==> EvaluateHand(a) == EvaluateHand(b)
  {
    HandNameRoundTrip(EvaluateHand(a));
    HandNameRoundTrip(EvaluateHand(b));
  }

  /** The players whose stack is positive, in their order. */
  function Solvent(players: seq<Player>): seq<Player>
    reads set p | p in players
  {
    if players == [] then []
    else
      var front := Solvent(players[..|players| - 1]);
      var last := players[|players| - 1];
      if last.chips > 0 then front + [last] else front
  }

  /** Exactly the players with a positive stack are kept. */
  lemma {:induction false} SolventMembers(players: seq<Player>)
    ensures forall p :: p in Solvent(players) <==> p in players && p.chips > 0
  {
    if players != [] {
      var front := players[..|players| - 1];
      SolventMembers(front);
      assert players == front + [players[|players| - 1]];
    }
  }

  /** Resets every player: hand emptied, fold flag and current bet cleared, stack kept. */
  method ResetAll(players: seq<Player>)
    requires Distinct(players)
    modifies set p | p in players
    ensures forall k :: 0 <= k < |players| ==> players[k].State() == PlayerState([], old(players[k].chips), false, 0)
  {
    for k := 0 to |players|
      invariant forall j :: 0 <= j < k ==> players[j].State() == PlayerState([], old(players[j].chips), false, 0)
      invariant forall j :: k <= j < |players| ==> players[j].State() == old(players[j].State())
    {
      players[k].ResetForNewRound();
    }
  }

  /** The players whose stack is positive, in their order, as the source's removeIf leaves them. */
  method KeepSolvent(players: seq<Player>) returns (remaining: seq<Player>)
    ensures remaining == Solvent(players)
    ensures forall p :: p in remaining <==> p in players && p.chips > 0
  {
    remaining := [];
    for k := 0 to |players|
      invariant remaining == Solvent(players[..k])
    {
      assert players[..k + 1][..k] == players[..k];
      if players[k].chips > 0 {
        remaining := remaining + [players[k]];
      }
    }
    assert players[..|players|] == players;
    SolventMembers(players);
  }

  /** The end of a round: every player is reset (hand emptied, fold flag and current bet
      cleared, stack kept), then the players whose stack is not positive are removed,
      the others keeping their order. */
  method EndRound(players: seq<Player>) returns (remaining: seq<Player>)
    requires Distinct(players)
    modifies set p | p in players
    ensures forall k :: 0 <= k < |players| ==> players[k].State() == PlayerState([], old(players[k].chips), false, 0)
    ensures remaining == Solvent(players)
    ensures forall p :: p in remaining <==> p in players && p.chips > 0
  {
    ResetAll(players);
    remaining := KeepSolvent(players);
  }
}
