/** A betting round: seats take turns in table order, each turn consuming one input.
    The source's loop has no reachable exit, so here it runs until the inputs are used up. */
module Betting {
  import opened Cards
  import opened Sequences
  import opened Players

  /** The players' fields, seat by seat. */
  function States(players: seq<Player>): (states: seq<PlayerState>)
    reads set p | p in players
    ensures |states| == |players|
    ensures forall k :: 0 <= k < |players| ==> states[k] == players[k].State()
  {
    seq(|players|, k requires 0 <= k < |players| reads set p | p in players => players[k].State())
  }

  /** A seat is asked for input unless it has folded or has no chips. */
  predicate InRound(p: PlayerState)
  {
    !p.folded && p.chips != 0
  }

  /** The first seat in round met when looking at no more than `fuel` seats,
      cyclically from `from`. */
  function Scan(seats: seq<PlayerState>, from: nat, fuel: nat): (found: Option<nat>)
    requires from < |seats|
    ensures found.Some? ==> found.value < |seats| && InRound(seats[found.value])
    decreases fuel
  {
    if fuel == 0 then None
    else if InRound(seats[from]) then Some(from)
    else Scan(seats, (from + 1) % |seats|, fuel - 1)
  }

  /** Number of steps from `from` forward to `to` around a table of n seats. */
  function Distance(n: nat, from: nat, to: nat): nat
    requires from < n && to < n
  {
    if from <= to then to - from else to + n - from
  }

  /** A full scan finds a seat exactly when some seat is still in round. */
  lemma {:induction false} ScanFinds(seats: seq<PlayerState>, from: nat, fuel: nat, j: nat)
    requires from < |seats| && j < |seats| && InRound(seats[j])
    requires Distance(|seats|, from, j) < fuel
    ensures Scan(seats, from, fuel).Some?
    decreases fuel
  {
    if !InRound(seats[from]) {
      DistanceStep(|seats|, from, j);
      ScanFinds(seats, (from + 1) % |seats|, fuel - 1, j);
    }
  }

  /** Moving one seat forward brings a different target one step closer. */
  lemma DistanceStep(n: nat, from: nat, to: nat)
    requires from < n && to < n && from != to
    ensures Distance(n, (from + 1) % n, to) == Distance(n, from, to) - 1
  {
    if from + 1 == n {
      assert (from + 1) % n == 0;
    } else {
      assert (from + 1) % n == from + 1;
    }
  }

  /** The seat found is the first one in round going round from `from`: every seat
      closer to `from` is folded or has no chips. */
  lemma {:induction false} ScanFirst(seats: seq<PlayerState>, from: nat, fuel: nat, j: nat)
    requires from < |seats| && j < |seats| && Scan(seats, from, fuel).Some?
    requires Distance(|seats|, from, j) < Distance(|seats|, from, Scan(seats, from, fuel).value)
    ensures !InRound(seats[j])
    decreases fuel
  {
    var n := |seats|;
    var i := Scan(seats, from, fuel).value;
    assert i != from;
    if j != from {
      assert Scan(seats, from, fuel) == Scan(seats, (from + 1) % n, fuel - 1);
      DistanceStep(n, from, i);
      DistanceStep(n, from, j);
      ScanFirst(seats, (from + 1) % n, fuel - 1, j);
    }
  }

  lemma ScanNoneMeansNobody(seats: seq<PlayerState>, from: nat)
    requires from < |seats|
    ensures Scan(seats, from, |seats|).None? <==> forall j :: 0 <= j < |seats| ==> !InRound(seats[j])
  {
    if exists j :: 0 <= j < |seats| && InRound(seats[j]) {
      var j :| 0 <= j < |seats| && InRound(seats[j]);
      ScanFinds(seats, from, |seats|, j);
    }
  }

  /** The state of a betting round: the seats, the chips collected, the table bet,
      the seat where the search for the next turn starts, and whether every seat has
      dropped out of the round (the source then loops without ever asking again). */
  datatype Betting = Betting(seats: seq<PlayerState>, pot: int, tableBet: int, turn: nat, stalled: bool)

  function StartBetting(seats: seq<PlayerState>): Betting
  {
    Betting(seats, 0, 0, 0, false)
  }

  /** The amount an input stands for: -1 asks for whatever brings the seat's bet up to the
      table bet (negative when the seat is already above it); anything else is taken as is. */
  function Amount(input: int, tableBet: int, p: PlayerState): int
  {
    if input == -1 then tableBet - p.currentBet else input
  }

  /** Seat i answers with `input`. A positive amount it can afford is bet, added to the pot,
      and the seat's new total becomes the table bet; a positive amount it cannot afford, or 0
      while it owes chips, asks the same seat again; 0 otherwise checks; any other negative
      amount passes the turn. */
  function Act(b: Betting, i: nat, input: int): (r: Betting)
    requires i < |b.seats|
    ensures |r.seats| == |b.seats| && r.turn < |r.seats|
  {
    var n := |b.seats|;
    var p := b.seats[i];
    var amount := Amount(input, b.tableBet, p);
    if amount > 0 then
      if p.chips >= amount then
        var q := p.(chips := p.chips - amount, currentBet := p.currentBet + amount);
        Betting(b.seats[i := q], b.pot + amount, q.currentBet, (i + 1) % n, false)
      else b.(turn := i)
    else if amount == 0 && b.tableBet > p.currentBet then b.(turn := i)
    else b.(turn := (i + 1) % n)
  }

  /** One input: it goes to the next seat in round; with nobody in round the round stalls. */
  function Step(b: Betting, input: int): (r: Betting)
    requires b.turn < |b.seats|
    ensures |r.seats| == |b.seats| && r.turn < |r.seats|
  {
    if b.stalled then b
    else match Scan(b.seats, b.turn, |b.seats|)
      case None => b.(stalled := true)
      case Some(i) => Act(b, i, input)
  }

  /** The inputs consumed one after the other. */
  function RunBetting(b: Betting, inputs: seq<int>): (r: Betting)
    requires b.turn < |b.seats|
    ensures |r.seats| == |b.seats| && r.turn < |r.seats|
  {
    if inputs == [] then b
    else Step(RunBetting(b, inputs[..|inputs| - 1]), inputs[|inputs| - 1])
  }

  /** Once stalled, further inputs change nothing. */
  lemma {:induction false} StalledStays(b: Betting, inputs: seq<int>, k: nat)
    requires b.turn < |b.seats| && k <= |inputs|
    requires RunBetting(b, inputs[..k]).stalled
    ensures RunBetting(b, inputs) == RunBetting(b, inputs[..k])
  {
    if k < |inputs| {
      var front := inputs[..|inputs| - 1];
      assert front[..k] == inputs[..k];
      StalledStays(b, front, k);
    } else {
      assert inputs[..k] == inputs;
    }
  }

  /** Chips held at the seats. */
  function TotalChips(seats: seq<PlayerState>): int
  {
    if seats == [] then 0 else TotalChips(seats[..|seats| - 1]) + seats[|seats| - 1].chips
  }

  lemma {:induction false} TotalChipsUpdate(seats: seq<PlayerState>, i: nat, q: PlayerState)
    requires i < |seats|
    ensures TotalChips(seats[i := q]) == TotalChips(seats) - seats[i].chips + q.chips
  {
    var last := |seats| - 1;
    if i < last {
      assert seats[i := q][..last] == seats[..last][i := q];
      TotalChipsUpdate(seats[..last], i, q);
    } else {
      assert seats[i := q][..last] == seats[..last];
    }
  }

  /** Every seat keeps its stake (chips plus current bet), its fold flag and its hand. */
  predicate SameStakes(a: seq<PlayerState>, b: seq<PlayerState>)
  {
    |a| == |b| &&
    forall k :: 0 <= k < |a| ==>
      a[k].chips + a[k].currentBet == b[k].chips + b[k].currentBet &&
      a[k].folded == b[k].folded && a[k].hand == b[k].hand
  }

  predicate NoDebt(seats: seq<PlayerState>)
  {
    forall k :: 0 <= k < |seats| ==> seats[k].chips >= 0
  }

  /** What one input preserves: stakes, the chips at the table plus the pot, no seat in debt;
      the pot never shrinks. */
  lemma StepInvariants(b: Betting, input: int)
    requires b.turn < |b.seats|
    ensures var r := Step(b, input);
      && SameStakes(r.seats, b.seats)
      && TotalChips(r.seats) + r.pot == TotalChips(b.seats) + b.pot
      && r.pot >= b.pot
      && (NoDebt(b.seats) ==> NoDebt(r.seats))
  {
    if !b.stalled {
      var found := Scan(b.seats, b.turn, |b.seats|);
      if found.Some? {
        var i := found.value;
        var p := b.seats[i];
        var amount := Amount(input, b.tableBet, p);
        if amount > 0 && p.chips >= amount {
          var q := p.(chips := p.chips - amount, currentBet := p.currentBet + amount);
          TotalChipsUpdate(b.seats, i, q);
        }
      }
    }
  }

  /** The same over any sequence of inputs. */
  lemma {:induction false} BettingInvariants(b: Betting, inputs: seq<int>)
    requires b.turn < |b.seats|
    ensures var r := RunBetting(b, inputs);
      && SameStakes(r.seats, b.seats)
      && TotalChips(r.seats) + r.pot == TotalChips(b.seats) + b.pot
      && r.pot >= b.pot
      && (NoDebt(b.seats) ==> NoDebt(r.seats))
  {
    if inputs != [] {
      var front := RunBetting(b, inputs[..|inputs| - 1]);
      BettingInvariants(b, inputs[..|inputs| - 1]);
      StepInvariants(front, inputs[|inputs| - 1]);
    }
  }

  /** The round stalls only when no seat is left in round. */
  lemma StallsOnlyWhenNobodyInRound(b: Betting, input: int)
    requires b.turn < |b.seats| && !b.stalled
    ensures Step(b, input).stalled <==> forall j :: 0 <= j < |b.seats| ==> !InRound(b.seats[j])
  {
    ScanNoneMeansNobody(b.seats, b.turn);
  }

  /** An unaffordable positive amount, or 0 while the seat owes chips, changes nothing and
      hands the next input to the same seat. */
  lemma RetryAsksSameSeat(b: Betting, i: nat, input: int)
    requires i < |b.seats| && InRound(b.seats[i])
    requires var amount := Amount(input, b.tableBet, b.seats[i]);
      (amount > 0 && b.seats[i].chips < amount) || (amount == 0 && b.tableBet > b.seats[i].currentBet)
    ensures var r := Act(b, i, input);
      r.seats == b.seats && r.pot == b.pot && r.tableBet == b.tableBet
      && Scan(r.seats, r.turn, |r.seats|) == Some(i)
  {
  }

  /** A positive bet smaller than what the seat owes is still taken, and the table bet
      drops to the seat's new total. */
  lemma UnderBetLowersTableBet(b: Betting, i: nat, amount: int)
    requires i < |b.seats|
    requires 0 < amount <= b.seats[i].chips && b.seats[i].currentBet + amount < b.tableBet
    ensures var r := Act(b, i, amount);
      r.pot == b.pot + amount && r.tableBet == b.seats[i].currentBet + amount < b.tableBet
  {
  }

  /** A seat already above the table bet (its bet from an earlier round is kept) that
      answers -1 asks for a negative amount, which just passes the turn. */
  lemma CallAboveTableBetPasses(b: Betting, i: nat)
    requires i < |b.seats| && b.seats[i].currentBet > b.tableBet
    ensures Act(b, i, -1) == b.(turn := (i + 1) % |b.seats|)
  {
  }

  /** Only the answering seat changes, and the pot grows by exactly the chips it gave. */
  lemma ActFrame(b: Betting, i: nat, input: int)
    requires i < |b.seats|
    ensures var r := Act(b, i, input);
      && (forall k :: 0 <= k < |b.seats| && k != i ==> r.seats[k] == b.seats[k])
      && r.pot - b.pot == b.seats[i].chips - r.seats[i].chips
  {
  }

  /** A positive amount the seat can afford moves from its chips to its bet and into the pot;
      the seat's new total becomes the table bet and the turn passes to the next seat. */
  lemma AffordableBetTaken(b: Betting, i: nat, input: int)
    requires i < |b.seats|
    requires 0 < Amount(input, b.tableBet, b.seats[i]) <= b.seats[i].chips
    ensures var amount := Amount(input, b.tableBet, b.seats[i]);
      var p := b.seats[i];
      var r := Act(b, i, input);
      && r.seats[i] == p.(chips := p.chips - amount, currentBet := p.currentBet + amount)
      && r.pot == b.pot + amount
      && r.tableBet == r.seats[i].currentBet
      && r.turn == (i + 1) % |b.seats|
  {
  }

  /** An answer worth 0 from a seat that owes nothing is a check: only the turn moves on. */
  lemma CheckPasses(b: Betting, i: nat, input: int)
    requires i < |b.seats|
    requires Amount(input, b.tableBet, b.seats[i]) == 0 && b.tableBet <= b.seats[i].currentBet
    ensures Act(b, i, input) == b.(turn := (i + 1) % |b.seats|)
  {
  }

  /** A negative answer other than -1 is neither a bet nor a check; it just passes the turn. */
  lemma OtherNegativePasses(b: Betting, i: nat, input: int)
    requires i < |b.seats| && input < 0 && input != -1
    ensures Act(b, i, input) == b.(turn := (i + 1) % |b.seats|)
  {
  }

  /** Two players with 100 chips: a bet of 10 and a call put 20 in the pot. */
  lemma BetAndCallExample()
    ensures var seats := [PlayerState([], 100, false, 0), PlayerState([], 100, false, 0)];
      var r := RunBetting(StartBetting(seats), [10, -1]);
      r.pot == 20 && r.tableBet == 10 && !r.stalled
      && r.seats[0].chips == 90 && r.seats[1].chips == 90
      && r.seats[0].currentBet == 10 && r.seats[1].currentBet == 10
  {
    var seats := [PlayerState([], 100, false, 0), PlayerState([], 100, false, 0)];
    var b0 := StartBetting(seats);
    assert [10, -1][..1] == [10];
    var b1 := Step(b0, 10);
    assert b1.seats[0] == PlayerState([], 90, false, 10) && b1.turn == 1 && b1.tableBet == 10;
    assert RunBetting(b0, [10]) == b1;
  }

  /** Two players with 100 chips: a bet of 20 answered by 5 lowers the table bet to 5,
      after which 0 checks for both. */
  lemma UnderBetExample()
    ensures var seats := [PlayerState([], 100, false, 0), PlayerState([], 100, false, 0)];
      var r := RunBetting(StartBetting(seats), [20, 5, 0, 0]);
      r.pot == 25 && r.tableBet == 5 && r.turn == 0 && !r.stalled
      && r.seats[0].chips == 80 && r.seats[1].chips == 95
  {
    var seats := [PlayerState([], 100, false, 0), PlayerState([], 100, false, 0)];
    var b0 := StartBetting(seats);
    var inputs := [20, 5, 0, 0];
    assert inputs[..1][..0] == [] && inputs[..2][..1] == inputs[..1];
    assert inputs[..3][..2] == inputs[..2] && inputs[..4][..3] == inputs[..3];
    var b1 := Step(b0, 20);
    assert RunBetting(b0, inputs[..1]) == b1;
    var b2 := Step(b1, 5);
    assert RunBetting(b0, inputs[..2]) == b2;
    assert b2.tableBet == 5 && b2.turn == 0;
    var b3 := Step(b2, 0);
    assert RunBetting(b0, inputs[..3]) == b3;
    assert b3.turn == 1;
    assert inputs[..4] == inputs;
  }

  /** Looks for the next seat in round, from seat `from` on, as the source's loop does when
      it skips folded seats and seats without chips. */
  method NextInRound(players: seq<Player>, from: nat) returns (seat: Option<nat>)
    requires from < |players|
    ensures seat == Scan(States(players), from, |players|)
  {
    var n := |players|;
    var i: nat := from;
    var scanned: nat := 0;
    while scanned < n && (players[i].folded || players[i].chips == 0)
      invariant scanned <= n && i < n
      invariant Scan(States(players), from, n) == Scan(States(players), i, n - scanned)
    {
      i := (i + 1) % n;
      scanned := scanned + 1;
    }
    if scanned == n {
      return None;
    }
    return Some(i);
  }

  /** Seat i answers with `input`; the outcome is that of Act (whatever seat the search
      for the turn started from). */
  method TakeTurn(players: seq<Player>, i: nat, pot: int, tableBet: int, input: int, ghost from: nat)
    returns (newPot: int, newTableBet: int, next: nat)
    requires Distinct(players) && i < |players|
    modifies players[i]
    ensures Betting(States(players), newPot, newTableBet, next, false)
      == Act(Betting(old(States(players)), pot, tableBet, from, false), i, input)
  {
    var n := |players|;
    var player := players[i];
    newPot, newTableBet, next := pot, tableBet, (i + 1) % n;
    var bet := input;
    if bet == -1 {
      bet := tableBet - player.currentBet;
    }
    if bet > 0 {
      if player.HasEnoughChips(bet) {
        player.Bet(bet);
        newPot := pot + bet;
        newTableBet := player.currentBet;
      } else {
        next := i;
      }
    } else if bet == 0 {
      if tableBet > player.currentBet {
        next := i;
      }
    }
    assert forall k :: 0 <= k < n && k != i ==> players[k] != player;
  }

  /** Runs the betting for the given players, the console replaced by `inputs`. With fewer
      than two players nothing is asked and nothing is collected. Otherwise the result is
      that of RunBetting, and the players' fields are the final seats. */
  method BettingRound(players: seq<Player>, inputs: seq<int>) returns (pot: int, stalled: bool)
    requires Distinct(players)
    modifies set p | p in players
    ensures |players| <= 1 ==> pot == 0 && !stalled && States(players) == old(States(players))
    ensures |players| >= 2 ==>
      var r := RunBetting(StartBetting(old(States(players))), inputs);
      States(players) == r.seats && pot == r.pot && stalled == r.stalled
  {
    pot := 0;
    stalled := false;
    var n := |players|;
    if n <= 1 {
      return;
    }
    ghost var start := StartBetting(States(players));
    var tableBet := 0;
    var i: nat := 0;
    for k := 0 to |inputs|
      invariant i < n
      invariant Betting(States(players), pot, tableBet, i, false) == RunBetting(start, inputs[..k])
    {
      assert inputs[..k + 1][..k] == inputs[..k];
      ghost var before := RunBetting(start, inputs[..k]);
      assert RunBetting(start, inputs[..k + 1]) == Step(before, inputs[k]);
      var seat := NextInRound(players, i);
      if seat.None? {
        // Every seat has folded or is out of chips: the source loop spins without asking.
        stalled := true;
        StalledStays(start, inputs, k + 1);
        return;
      }
      assert before.seats == States(players);
      assert Step(before, inputs[k]) == Act(before, seat.value, inputs[k]);
      pot, tableBet, i := TakeTurn(players, seat.value, pot, tableBet, inputs[k], i);
    }
    assert inputs[..|inputs|] == inputs;
  }
}
