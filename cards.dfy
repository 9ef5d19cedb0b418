/** Cards as the engine sees them: a suit and a numeric value. */
module Cards {

  datatype Suit = Hearts | Diamonds | Clubs | Spades

  /** A playing card. `value` is the rank's position in the rank order plus two:
      2..10 for the number cards, then Jack 11, Queen 12, King 13 and Ace 14.
      The display name of the rank is not modelled. */
  datatype Card = Card(suit: Suit, value: int)

  datatype Option<+T> = None | Some(value: T)

  /** The suits in the order the deck constructor iterates over them. */
  const SuitOrder: seq<Suit> := [Hearts, Diamonds, Clubs, Spades]

  /** Number of ranks (2 through Ace). */
  const RankCount: nat := 13

  function SuitIndex(s: Suit): (k: nat)
    ensures k < |SuitOrder| && SuitOrder[k] == s
  {
    match s
    case Hearts => 0
    case Diamonds => 1
    case Clubs => 2
    case Spades => 3
  }
}
