# Five-card-draw poker engine, modelled in Dafny

This project models the core of `PokerGame.java`, a console game of five-card-draw poker:

- the cards and the 52-card deck (built rank by rank, shuffled, dealt from the end);
- the hand evaluator, which classifies a hand into one of ten categories, from High Card (1)
  to Royal Flush (10);
- the players (hand, chip stack, fold flag, current bet) and their small update operations;
- a betting round driven by a sequence of numeric answers;
- the showdown that pays the pot to the strongest hands;
- the display name of each category and the end of a round, which resets the players and
  removes those without chips.

Modules follow the program's classes:

| file | module | models |
|---|---|---|
| `cards.dfy` | `Cards` | `Card`, the suit order, an `Option` type |
| `sequences.dfy` | `Sequences` | sorting and summing the card values; occurrence counting |
| `hand_evaluator.dfy` | `HandEvaluator` | `HandEvaluator`: its predicates as functions; `getRankCounts` and the straight test as loops |
| `deck.dfy` | `Decks` | `Deck` as a class over a `seq<Card>` |
| `players.dfy` | `Players` | `Player` as a class; card replacement as a specification function |
| `betting.dfy` | `Betting` | `bettingRound`: a step function, its fold over the inputs, and the imperative loop proved against it |
| `showdown.dfy` | `Showdown` | `determineWinner`: the payout as a function of the seats, and the imperative version proved against it |
| `round.dfy` | `Round` | `getHandName` and the end-of-round reset and elimination |

Stateful entities are classes (`Decks.Deck`, `Players.Player`). Their methods are proved against
functions on values. The betting round and the showdown take a sequence of distinct `Player`
objects. They are specified by `Betting.RunBetting` and `Showdown.Payout`, applied to the players'
states (`Betting.States`).

Java `int` arithmetic is modelled with unbounded integers. The pot split uses `Showdown.JavaDiv`,
which truncates toward zero as Java's `/` does.

Where the code departs from the usual rules of poker, the model follows the code:

- The betting loop has no reachable exit: the count of players in the round is never
  decremented. The model runs one step per input and stops when the inputs run out.
- A positive bet below the amount owed is accepted, and it lowers the table bet to the bettor's
  new total.
- `currentBet` is not reset between the two betting rounds of a deal, but the table bet is. An
  answer of -1 can therefore ask for a negative amount, and the turn just passes.
- Negative answers other than -1 pass the turn.
- `fold` is never called by the game. A seat with no chips is skipped, and it can still win the
  showdown.
- The evaluator accepts a hand of any length. An empty hand ranks Straight (5); a hand of one
  card ranks Straight Flush (9).

## Model

| member | source | states |
|---|---|---|
| HandEvaluator.RankCounts | PokerGame.java:99-105 | definition: each value present in the hand mapped to its number of cards (the loop is `GetRankCounts`) |
| HandEvaluator.IsRoyalFlush | PokerGame.java:56-58 | definition: a straight flush whose values sum to 60; meaning in `RoyalFlushShape` |
| HandEvaluator.IsStraightFlush | PokerGame.java:60-62 | definition: a flush that is also a straight; meaning in `StraightFlushShape` |
| HandEvaluator.IsFourOfAKind | PokerGame.java:64-66 | definition: 4 is among the histogram's counts; meaning in `FourOfAKindShape` |
| HandEvaluator.IsFullHouse | PokerGame.java:68-71 | definition: both 3 and 2 are among the histogram's counts; meaning in `FullHouseMeaning` |
| HandEvaluator.IsFlush | PokerGame.java:73-75 | definition: exactly one distinct suit in the hand |
| HandEvaluator.IsStraight | PokerGame.java:77-85 | definition: the sorted values step by +1 (the loop is `CheckStraight`); meaning in `StraightIsRun` |
| HandEvaluator.IsThreeOfAKind | PokerGame.java:87-89 | definition: 3 is among the histogram's counts; meaning in `ThreeOfAKindMeaning` |
| HandEvaluator.IsTwoPair | PokerGame.java:91-93 | definition: exactly two values have count 2; meaning in `OnlyTwoPairs` and `TwoPairMeaning` |
| HandEvaluator.IsPair | PokerGame.java:95-97 | definition: 2 is among the histogram's counts; meaning in `PairMeaning` |
| HandEvaluator.EvaluateHand | PokerGame.java:43-54 | every hand, of any length, gets a category in 1..10 |
| HandEvaluator.GetRankCounts | PokerGame.java:99-105 | the map built card by card has exactly the values in the hand as keys, each mapped to its number of cards |
| HandEvaluator.CheckStraight | PokerGame.java:77-85 | the loop over the sorted values answers true exactly when every step is +1 |
| HandEvaluator.RoyalFlushMeaning | PokerGame.java:56-58 | for five cards: category 10 exactly when they share one suit and their values are 10, J, Q, K, A |
| HandEvaluator.RoyalFlushShape | PokerGame.java:56-58 | straight flush with value sum 60 is the same as one suit with values exactly {10..14} |
| HandEvaluator.StraightFlushMeaning | PokerGame.java:60-62 | for five cards: category 9 exactly when they are one suit and five consecutive values not starting at 10 |
| HandEvaluator.StraightFlushShape | PokerGame.java:60-62 | straight flush but not royal is the same as one suit with a run not starting at 10 |
| HandEvaluator.FourOfAKindMeaning | PokerGame.java:64-66 | category 8 exactly when some value occurs four times |
| HandEvaluator.FourOfAKindShape | PokerGame.java:64-66 | the histogram contains 4 exactly when a value occurs four times; four of a kind is never a straight |
| HandEvaluator.FullHouseMeaning | PokerGame.java:68-71 | for five cards: category 7 exactly when one value occurs three times and another twice |
| HandEvaluator.FullHouseShape | PokerGame.java:68-71 | a full house excludes four of a kind and a straight |
| HandEvaluator.FlushMeaning | PokerGame.java:73-75 | for five distinct cards: category 6 exactly when they share one suit and are not five consecutive values |
| HandEvaluator.StraightMeaning | PokerGame.java:77-85 | for five cards: category 5 exactly when they are five consecutive values in more than one suit |
| HandEvaluator.StraightIsRun | PokerGame.java:77-85 | for five cards, sorted values stepping by +1 means the values are five in a row |
| HandEvaluator.StraightHasDistinctValues | PokerGame.java:77-85 | a straight never repeats a value |
| HandEvaluator.StraightShape | PokerGame.java:77-85 | a straight is never four of a kind nor a full house |
| HandEvaluator.LowAceIsNoStraight | PokerGame.java:77-85 | A-2-3-4-5 is not a straight (the Ace is only 14): it ranks Flush if suited, High Card otherwise |
| HandEvaluator.ShortHands | PokerGame.java:43-85 | an empty hand ranks Straight (5); one card ranks Straight Flush (9), Royal only for a value of 60 |
| HandEvaluator.ThreeOfAKindMeaning | PokerGame.java:87-89 | for five distinct cards: category 4 exactly when one value occurs three times and no other repeats |
| HandEvaluator.TwoPairMeaning | PokerGame.java:91-93 | for five distinct cards: category 3 exactly when two different values occur twice each |
| HandEvaluator.OnlyTwoPairs | PokerGame.java:91-93 | with two values occurring twice in five cards, those are exactly the paired values counted |
| HandEvaluator.PairMeaning | PokerGame.java:95-97 | for five distinct cards: category 2 exactly when one value occurs twice and no other repeats |
| HandEvaluator.HighCardMeaning | PokerGame.java:43-54 | for five distinct cards: category 1 exactly when no value repeats, the suits differ and the values are not a run |
| HandEvaluator.DistinctValuesRank | PokerGame.java:43-54 | with no repeated value, only flush and straight tests decide the category (10, 9, 6, 5 or 1) |
| HandEvaluator.DistinctCounts | PokerGame.java:64-97 | with no repeated value, none of the histogram tests holds |
| HandEvaluator.CountPresent | PokerGame.java:99-105 | a count appears in the histogram exactly when some value occurs that many times |
| HandEvaluator.SameTests | PokerGame.java:56-105 | each of the evaluator's tests gives the same answer on two hands with the same cards |
| HandEvaluator.EvaluateHandPermutation | PokerGame.java:43-105 | the category does not depend on the order of the cards |
| Decks.OrderedDeck | PokerGame.java:24-33 | definition: rank by rank from 2 to 14, the four suits in order within each rank; properties in `OrderedDeckComplete` |
| Decks.OrderedDeckComplete | PokerGame.java:24-33 | the deck built before shuffling has 52 distinct cards, exactly the cards with values 2..14 in every suit |
| Decks.ShuffledDeckComplete | PokerGame.java:24-34 | any permutation of the built deck still has 52 distinct cards, one per suit and value |
| Decks.SwapKeepsCards | PokerGame.java:34 | a swap step of the shuffle keeps the multiset of cards |
| Decks.Deck.constructor | PokerGame.java:24-35 | the new deck is a permutation of the built deck: 52 distinct cards, one per suit and value 2..14 |
| Decks.Deck.DrawCard | PokerGame.java:37-39 | a non-empty deck yields its last card and keeps the rest in order; an empty deck yields nothing |
| Players.Player.constructor | PokerGame.java:115-121 | a new player has the given name and chips, an empty hand, is not folded and has bet nothing |
| Players.Player.DrawHand | PokerGame.java:123-128 | the hand becomes the last five cards of the deck, last first; the deck loses exactly them; with fewer than five cards the draw fails |
| Players.Player.ReplaceCards | PokerGame.java:130-136 | the new hand and deck are those of `Replace` on the old ones; failure exactly when a draw met an empty deck |
| Players.ReplaceStep | PokerGame.java:131-133 | definition: an index in 1..size overwrites its slot with the deck's last card; other indices change nothing; an empty deck stops the operation |
| Players.Replace | PokerGame.java:130-136 | definition: the indices applied in order; properties in the `Replace…` lemmas below |
| Players.ReplaceDraws | PokerGame.java:130-136 | replacing keeps the hand size; the deck loses one card from its end per in-range index; it completes exactly when the deck has enough cards |
| Players.ReplaceKeepsUnnamed | PokerGame.java:130-136 | a slot no index names keeps its card |
| Players.ReplaceFillsNamed | PokerGame.java:130-136 | after a completed replacement, each named slot holds a card drawn off the deck |
| Players.ReplaceLosesNoCardTwice | PokerGame.java:130-136 | hand and deck together never gain a card |
| Players.ReplaceStopped | PokerGame.java:130-136 | once a draw has failed, later indices change nothing |
| Players.Player.Bet | PokerGame.java:149-152 | chips drop and the current bet grows by the amount, so their sum is kept |
| Players.Player.Fold | PokerGame.java:154-156 | the player is folded afterwards; nothing else changes |
| Players.Player.Win | PokerGame.java:158-160 | chips grow by the amount; nothing else changes |
| Players.Player.ResetForNewRound | PokerGame.java:162-166 | hand emptied, fold flag and current bet cleared, chips kept |
| Players.Player.HandStrength | PokerGame.java:168-170 | the category of the current hand, in 1..10 |
| Betting.Scan | PokerGame.java:244-246 | a seat it returns is in the round (not folded, chips not 0); that it is the first such seat is `ScanFirst` |
| Betting.ScanFirst | PokerGame.java:244-246 | every seat closer to the starting seat than the one found is folded or has no chips |
| Betting.ScanNoneMeansNobody | PokerGame.java:244-246 | the search for the next seat fails exactly when every seat is folded or has no chips |
| Betting.ScanFinds | PokerGame.java:244-246 | a seat in round within reach of the search is found |
| Betting.Amount | PokerGame.java:254-256 | definition: -1 stands for the table bet minus the seat's current bet, any other answer for itself |
| Betting.Act | PokerGame.java:253-274 | one answer keeps the number of seats and hands the turn to a valid seat |
| Betting.ActFrame | PokerGame.java:258-273 | only the answering seat changes, and the pot grows by exactly the chips that seat gave |
| Betting.AffordableBetTaken | PokerGame.java:258-262 | an affordable positive amount moves from chips to bet and into the pot, becomes the table bet, and the turn passes |
| Betting.CheckPasses | PokerGame.java:267-272 | 0 from a seat that owes nothing changes nothing but the turn, which passes |
| Betting.OtherNegativePasses | PokerGame.java:258-273 | a negative answer other than -1 matches no branch and just passes the turn |
| Betting.Step | PokerGame.java:244-273 | one answer goes to the next seat in round, which `Act` applies; with nobody in round the round stalls; the seat count is kept and the turn stays valid |
| Betting.RunBetting | PokerGame.java:244-277 | the answers applied one after the other, keeping the seat count and a valid turn; invariants in `BettingInvariants` |
| Betting.StalledStays | PokerGame.java:244-246 | once every seat is out of the round, further inputs change nothing |
| Betting.StepInvariants | PokerGame.java:253-273 | one answer keeps each seat's stake (chips plus bet), its fold flag and hand, the chips at the table plus the pot, and no seat in debt; the pot never shrinks |
| Betting.BettingInvariants | PokerGame.java:239-277 | the same holds over any sequence of answers |
| Betting.TotalChipsUpdate | PokerGame.java:258-262 | changing one seat changes the total by the difference of its chips |
| Betting.StallsOnlyWhenNobodyInRound | PokerGame.java:244-246 | the round stalls exactly when no seat is left in it |
| Betting.RetryAsksSameSeat | PokerGame.java:258-273 | an unaffordable bet, or 0 while owing chips, changes nothing and the same seat answers next |
| Betting.UnderBetLowersTableBet | PokerGame.java:258-262 | a positive bet below what is owed is taken, and the table bet drops to the bettor's new total |
| Betting.CallAboveTableBetPasses | PokerGame.java:254-256 | -1 from a seat already above the table bet asks for a negative amount and just passes the turn |
| Betting.BetAndCallExample | PokerGame.java:239-277 | two players with 100 chips: a bet of 10 and a call put 20 in the pot and leave each with 90 |
| Betting.UnderBetExample | PokerGame.java:239-277 | a bet of 20 answered by 5 leaves a pot of 25 and a table bet of 5 |
| Betting.NextInRound | PokerGame.java:244-246 | the loop that skips folded and broke seats stops at the seat the search specifies |
| Betting.TakeTurn | PokerGame.java:253-273 | one turn on the players changes them, the pot, the table bet and the turn exactly as `Act` does |
| Betting.BettingRound | PokerGame.java:239-277 | with one player or none, nothing happens; otherwise the players, the returned pot and the stall flag are those of `RunBetting` over the answers |
| Showdown.MaxStrength | PokerGame.java:316-328 | definition: the running maximum over the listed seats, starting from -1; properties in `MaxStrengthBounds` |
| Showdown.AtStrength | PokerGame.java:319-328 | definition: the listed seats with the given strength, in order; properties in `AtStrengthMembers` |
| Showdown.Winners | PokerGame.java:315-328 | definition: the non-folded seats at the maximal strength; properties in `WinnersAreTheStrongest` |
| Showdown.JavaDiv | PokerGame.java:331 | definition: integer division truncating toward zero, as Java's `/` |
| Showdown.Credit | PokerGame.java:158-160 | definition: a seat's chips raised by an amount, nothing else changed |
| Showdown.Payout | PokerGame.java:298-334 | definition: no one paid when all folded, the whole pot to a sole survivor, otherwise pot / winners to each winner; properties in `SplitPot` and `PayoutTotal` |
| Showdown.ActiveSeats | PokerGame.java:299-301 | exactly the seats that have not folded |
| Showdown.MaxStrengthBounds | PokerGame.java:316-328 | the running maximum bounds every strength and is one of them unless no seat is left |
| Showdown.AtStrengthMembers | PokerGame.java:319-328 | the collected seats are exactly the listed seats with that strength |
| Showdown.WinnersAscending | PokerGame.java:319-328 | winners are collected in seat order |
| Showdown.WinnersAreTheStrongest | PokerGame.java:315-328 | a seat wins exactly when it has not folded and no other seat that has not folded is stronger |
| Showdown.WinnersNonEmpty | PokerGame.java:316-328 | someone wins as soon as one seat has not folded |
| Showdown.NobodyLeftNoPayout | PokerGame.java:303-306 | when every seat folded, no chips move |
| Showdown.SoleSurvivorTakesPot | PokerGame.java:308-313 | a sole remaining seat gains the whole pot; the others are unchanged |
| Showdown.SplitPot | PokerGame.java:330-334 | with two or more seats left, exactly the winners gain pot / winners each, and the dropped remainder is below the number of winners |
| Showdown.PayoutTotal | PokerGame.java:330-334 | the chips after the showdown exceed those before by exactly winners times share |
| Showdown.CollectActive | PokerGame.java:299-301 | the filter returns the non-folded players in seat order: a player is returned exactly when it has not folded |
| Showdown.CollectedMembers | PokerGame.java:299-301 | the players at the non-folded seats are exactly the players that have not folded |
| Showdown.StrongestPlayers | PokerGame.java:316-328 | the pass keeps exactly the players whose strength is the maximum |
| Showdown.TrackBestStep | PokerGame.java:320-327 | a better strength restarts the list of best players, an equal one joins it, a lower one is skipped |
| Showdown.PayEach | PokerGame.java:332-334 | each winner is credited once, nobody else |
| Showdown.SplitAmongStrongest | PokerGame.java:316-334 | with two or more seats left, the players afterwards are `Payout` of the players before |
| Showdown.DetermineWinner | PokerGame.java:298-334 | the players afterwards are `Payout` of the players before |
| Round.HandName | PokerGame.java:348-361 | "High Card" exactly for strengths outside 2..10 |
| Round.CategoryOf | PokerGame.java:348-361 | a recognised name maps back to a category with that name |
| Round.HandNameRoundTrip | PokerGame.java:348-361 | every category 1..10 has its own name |
| Round.SameNameSameCategory | PokerGame.java:348-361 | two hands are announced under the same name exactly when they fall in the same category |
| Round.Solvent | PokerGame.java:211 | definition: the players with a positive stack, in their order; properties in `SolventMembers` |
| Round.SolventMembers | PokerGame.java:211 | a player is kept exactly when it is listed and its stack is positive |
| Round.ResetAll | PokerGame.java:205-210 | every listed player gets an empty hand, no fold flag and no current bet, and keeps its stack |
| Round.KeepSolvent | PokerGame.java:211 | the loop keeps the players of `Solvent`, in their order: exactly those whose stack is positive |
| Round.EndRound | PokerGame.java:205-211 | every player is reset with its chips kept; the remaining players are exactly those with chips above 0, in their order |

## Left out

- Console input and output: prompts, `showHand`, `Card.toString`, the rank names, the result
  messages, `initializePlayers` and the play-again prompt. The answers of the betting round are a
  `seq<int>`, and replacement indices are a `seq<int>`.
- Parsing the replacement line (`split`, `Integer.parseInt`). The line "0" and the index list
  `[0]` have the same effect, since index 0 is ignored.
- `cardReplacementRound` and the `main` loop that chains dealing, two betting rounds, replacement,
  showdown and round end. They only sequence the modelled operations around console input.
- The randomness of `Collections.shuffle`. Its draws are the constructor parameter `rolls`. The
  constructor applies the library's backward swap loop, so the result is some permutation of the
  built deck.
- Decks.Deck.DrawCard: the exception on an empty deck is modelled as `None`. Players.Player.DrawHand
  and Players.Player.ReplaceCards stop at the first failed draw and return `false`. In Java the
  exception also ends the game, which is not modelled.
- Betting.BettingRound: the source loop never ends on its own. The model stops when the answers
  run out. When every seat is folded or has no chips, Java spins forever without asking anyone;
  the model returns with `stalled` set.
- 32-bit `int` overflow of chips, bets and the pot is not modelled.
- Players.Player.HasEnoughChips is a predicate with no contract of its own. It is used by
  Betting.TakeTurn.
