/** The showdown: the seats that have not folded compare hand strengths and the pot goes
    to the strongest, split evenly with Java's truncating division. */
module Showdown {
  import opened Sequences
  import opened HandEvaluator
  import opened Players
  import opened Betting

  /** Each seat's hand strength. */
  function Strengths(states: seq<PlayerState>): (strengths: seq<int>)
    ensures |strengths| == |states|
    ensures forall k :: 0 <= k < |states| ==> strengths[k] == EvaluateHand(states[k].hand)
  {
    seq(|states|, k requires 0 <= k < |states| => EvaluateHand(states[k].hand))
  }

  /** Seat numbers in strictly ascending order. */
  predicate Ascending(s: seq<nat>)
  {
    forall a, b :: 0 <= a < b < |s| ==> s[a] < s[b]
  }

  /** The seats that have not folded, in seat order. */
  function ActiveSeats(states: seq<PlayerState>): (seats: seq<nat>)
    ensures forall t :: 0 <= t < |seats| ==> seats[t] < |states|
    ensures forall k :: k in seats <==> 0 <= k < |states| && !states[k].folded
  {
    if states == [] then []
    else
      var front := ActiveSeats(states[..|states| - 1]);
      if states[|states| - 1].folded then front else front + [|states| - 1]
  }

  /** The highest strength among the given seats, -1 when there are none. */
  function MaxStrength(strengths: seq<int>, seats: seq<nat>): int
    requires forall t :: 0 <= t < |seats| ==> seats[t] < |strengths|
  {
    if seats == [] then -1
    else
      var m0 := MaxStrength(strengths, seats[..|seats| - 1]);
      var s := strengths[seats[|seats| - 1]];
      if s > m0 then s else m0
  }

  /** The maximum bounds every strength among the seats and, unless it is the starting
      value -1, is one of them. */
  lemma {:induction false} MaxStrengthBounds(strengths: seq<int>, seats: seq<nat>)
    requires forall t :: 0 <= t < |seats| ==> seats[t] < |strengths|
    ensures var m := MaxStrength(strengths, seats);
      && (forall t :: 0 <= t < |seats| ==> strengths[seats[t]] <= m)
      && (m == -1 || exists t :: 0 <= t < |seats| && strengths[seats[t]] == m)
  {
    if seats != [] {
      var front := seats[..|seats| - 1];
      MaxStrengthBounds(strengths, front);
      assert forall t :: 0 <= t < |front| ==> front[t] == seats[t];
    }
  }

  /** The given seats whose strength is m, in order. */
  function AtStrength(strengths: seq<int>, seats: seq<nat>, m: int): seq<nat>
    requires forall t :: 0 <= t < |seats| ==> seats[t] < |strengths|
  {
    if seats == [] then []
    else
      var front := AtStrength(strengths, seats[..|seats| - 1], m);
      var last := seats[|seats| - 1];
      if strengths[last] == m then front + [last]
      else front
  }

  /** The filter keeps exactly the given seats with strength m. */
  lemma {:induction false} AtStrengthMembers(strengths: seq<int>, seats: seq<nat>, m: int)
    requires forall t :: 0 <= t < |seats| ==> seats[t] < |strengths|
    ensures forall k :: k in AtStrength(strengths, seats, m) <==> k in seats && strengths[k] == m
  {
    if seats != [] {
      var front := seats[..|seats| - 1];
      AtStrengthMembers(strengths, front, m);
      assert seats == front + [seats[|seats| - 1]];
    }
  }

  lemma AscendingBelowLast(seats: seq<nat>, front: seq<nat>)
    requires seats != [] && front == seats[..|seats| - 1]
    ensures Ascending(seats) ==> forall x :: x in front ==> x < seats[|seats| - 1]
  {
    if Ascending(seats) {
      forall x | x in front ensures x < seats[|seats| - 1] {
        var t :| 0 <= t < |front| && front[t] == x;
      }
    }
  }

  lemma AppendAscending(front: seq<nat>, last: nat)
    ensures Ascending(front) && (forall x :: x in front ==> x < last) ==> Ascending(front + [last])
  {
    if Ascending(front) && (forall x :: x in front ==> x < last) {
      forall a, b | 0 <= a < b < |front| + 1 ensures (front + [last])[a] < (front + [last])[b] {
        if b == |front| {
          assert front[a] in front;
        }
      }
    }
  }

  /** Filtering keeps seats in ascending order. */
  lemma {:induction false} AtStrengthAscending(strengths: seq<int>, seats: seq<nat>, m: int)
    requires forall t :: 0 <= t < |seats| ==> seats[t] < |strengths|
    requires Ascending(seats)
    ensures Ascending(AtStrength(strengths, seats, m))
  {
    if seats != [] {
      var front := seats[..|seats| - 1];
      var last := seats[|seats| - 1];
      AtStrengthAscending(strengths, front, m);
      AscendingBelowLast(seats, front);
      AtStrengthMembers(strengths, front, m);
      AppendAscending(AtStrength(strengths, front, m), last);
    }
  }

  lemma {:induction false} ActiveAscending(states: seq<PlayerState>)
    ensures Ascending(ActiveSeats(states))
  {
    if states != [] {
      var front := states[..|states| - 1];
      ActiveAscending(front);
      AppendAscending(ActiveSeats(front), |states| - 1);
    }
  }

  /** The winners are listed in seat order. */
  lemma WinnersAscending(states: seq<PlayerState>)
    ensures Ascending(Winners(states))
  {
    var active := ActiveSeats(states);
    var strengths := Strengths(states);
    ActiveAscending(states);
    AtStrengthAscending(strengths, active, MaxStrength(strengths, active));
  }

  /** The seats that share the best strength among those that have not folded. */
  function Winners(states: seq<PlayerState>): seq<nat>
  {
    var active := ActiveSeats(states);
    var strengths := Strengths(states);
    AtStrength(strengths, active, MaxStrength(strengths, active))
  }

  /** Java's int division, which truncates toward zero. */
  function JavaDiv(a: int, b: int): int
    requires b != 0
  {
    if (a < 0) == (b < 0) then Abs(a) / Abs(b) else -(Abs(a) / Abs(b))
  }

  function Abs(x: int): nat
  {
    if x < 0 then -x else x
  }

  function Credit(p: PlayerState, amount: int): PlayerState
  {
    p.(chips := p.chips + amount)
  }

  /** The seats after the showdown: unchanged when every seat folded; a sole remaining seat
      takes the pot; otherwise each winner receives pot / |winners|. */
  function Payout(states: seq<PlayerState>, pot: int): seq<PlayerState>
  {
    var active := ActiveSeats(states);
    if |active| == 0 then states
    else if |active| == 1 then states[active[0] := Credit(states[active[0]], pot)]
    else
      var w := Winners(states);
      var share := if |w| == 0 then 0 else JavaDiv(pot, |w|);
      seq(|states|, k requires 0 <= k < |states| => if k in w then Credit(states[k], share) else states[k])
  }

  /** The winners are exactly the seats that have not folded and whose strength no other
      such seat exceeds; there is one at least as soon as one seat has not folded. */
  lemma WinnersAreTheStrongest(states: seq<PlayerState>, k: int)
    ensures k in Winners(states) <==>
      0 <= k < |states| && !states[k].folded &&
      forall j :: 0 <= j < |states| && !states[j].folded ==> Strengths(states)[j] <= Strengths(states)[k]
  {
    var active := ActiveSeats(states);
    var strengths := Strengths(states);
    var m := MaxStrength(strengths, active);
    AtStrengthMembers(strengths, active, m);
    MaxStrengthBounds(strengths, active);
    if 0 <= k < |states| && !states[k].folded &&
       forall j :: 0 <= j < |states| && !states[j].folded ==> strengths[j] <= strengths[k]
    {
      var t :| 0 <= t < |active| && strengths[active[t]] == m;
      assert strengths[active[t]] <= strengths[k];
      assert k in active;
    }
    if k in Winners(states) {
      forall j | 0 <= j < |states| && !states[j].folded
        ensures strengths[j] <= strengths[k]
      {
        assert j in active;
      }
    }
  }

  /** Somebody wins as soon as one seat has not folded. */
  lemma WinnersNonEmpty(states: seq<PlayerState>)
    ensures ActiveSeats(states) != [] ==> Winners(states) != []
  {
    var active := ActiveSeats(states);
    var strengths := Strengths(states);
    var m := MaxStrength(strengths, active);
    AtStrengthMembers(strengths, active, m);
    MaxStrengthBounds(strengths, active);
    if active != [] {
      assert active[0] in active;
      assert strengths[active[0]] >= 1;
      var t :| 0 <= t < |active| && strengths[active[t]] == m;
      assert active[t] in Winners(states);
    }
  }

  /** With every seat folded, nobody's chips change. */
  lemma NobodyLeftNoPayout(states: seq<PlayerState>, pot: int)
    requires forall k :: 0 <= k < |states| ==> states[k].folded
    ensures Payout(states, pot) == states
  {
  }

  /** A sole seat that has not folded takes the whole pot; nothing else changes. */
  lemma SoleSurvivorTakesPot(states: seq<PlayerState>, pot: int, k: nat)
    requires k < |states| && !states[k].folded
    requires forall j :: 0 <= j < |states| && j != k ==> states[j].folded
    ensures var r := Payout(states, pot);
      |r| == |states| && r[k] == Credit(states[k], pot)
      && forall j :: 0 <= j < |states| && j != k ==> r[j] == states[j]
  {
    var active := ActiveSeats(states);
    ActiveAscending(states);
    assert k in active;
    forall t | 0 <= t < |active| ensures active[t] == k {
      assert active[t] in active;
    }
    assert active[0] == k;
  }

  /** With two or more seats left, exactly the strongest receive a share, the share is the
      pot divided by their number, and the shares never exceed the pot: what is left over
      is less than the number of winners. */
  lemma SplitPot(states: seq<PlayerState>, pot: int)
    requires pot >= 0
    requires |ActiveSeats(states)| >= 2
    ensures |Winners(states)| >= 1
    ensures var r := Payout(states, pot); var w := Winners(states);
      var share := pot / |w|;
      && |r| == |states|
      && (forall k :: 0 <= k < |states| ==> r[k] == if k in w then Credit(states[k], share) else states[k])
      && 0 <= pot - share * |w| < |w|
  {
    WinnersNonEmpty(states);
    var w := Winners(states);
    assert JavaDiv(pot, |w|) == pot / |w|;
    DivBounds(pot, |w|);
  }

  lemma DivBounds(a: int, b: int)
    requires a >= 0 && b > 0
    ensures 0 <= a - (a / b) * b < b
  {
  }

  /** The seats that receive something hold, between them, pot / |winners| times the
      number of winners more chips than before. */
  lemma PayoutTotal(states: seq<PlayerState>, pot: int)
    requires pot >= 0
    requires |ActiveSeats(states)| >= 2
    ensures var w := Winners(states);
      |w| >= 1 && TotalChips(Payout(states, pot)) == TotalChips(states) + |w| * (pot / |w|)
  {
    var w := Winners(states);
    SplitPot(states, pot);
    var share := pot / |w|;
    var r := Payout(states, pot);
    CreditTotal(states, r, w, share);
    WinnersAscending(states);
    forall t | 0 <= t < |w| ensures w[t] < |states| {
      assert w[t] in w;
      WinnersAreTheStrongest(states, w[t]);
    }
    CountAscending(w, |states|);
    assert TotalChips(r) == TotalChips(states) + |w| * share;
  }

  /** How many of the seats 0..n-1 are listed in w. */
  function CountIn(w: seq<nat>, n: nat): nat
  {
    if n == 0 then 0 else CountIn(w, n - 1) + (if n - 1 in w then 1 else 0)
  }

  lemma {:induction false} CountAscending(w: seq<nat>, n: nat)
    requires Ascending(w) && forall t :: 0 <= t < |w| ==> w[t] < n
    ensures CountIn(w, n) == |w|
  {
    if n > 0 {
      if w != [] && w[|w| - 1] == n - 1 {
        var front := w[..|w| - 1];
        CountAscending(front, n - 1);
        assert forall x :: 0 <= x < n - 1 ==> (x in w <==> x in front);
        CountSame(w, front, n - 1);
      } else {
        assert n - 1 !in w;
        CountAscending(w, n - 1);
      }
    }
  }

  lemma {:induction false} CountSame(w: seq<nat>, v: seq<nat>, n: nat)
    requires forall x :: 0 <= x < n ==> (x in w <==> x in v)
    ensures CountIn(w, n) == CountIn(v, n)
  {
    if n > 0 {
      CountSame(w, v, n - 1);
    }
  }

  lemma {:induction false} CreditTotal(states: seq<PlayerState>, r: seq<PlayerState>, w: seq<nat>, share: int)
    requires |r| == |states|
    requires forall k :: 0 <= k < |states| ==> r[k] == if k in w then Credit(states[k], share) else states[k]
    ensures TotalChips(r) == TotalChips(states) + CountIn(w, |states|) * share
  {
    if states != [] {
      var n := |states|;
      CreditTotal(states[..n - 1], r[..n - 1], w, share);
    }
  }

  /** The players that have not folded, in seat order, as the source's stream filter
      collects them; `seats` are their seat numbers. */
  method CollectActive(players: seq<Player>) returns (active: seq<Player>, ghost seats: seq<nat>)
    ensures seats == ActiveSeats(States(players))
    ensures |active| == |seats| && forall t :: 0 <= t < |seats| ==> active[t] == players[seats[t]]
    ensures forall p :: p in active <==> p in players && !p.folded
  {
    ghost var states := States(players);
    active := [];
    seats := [];
    for k := 0 to |players|
      invariant seats == ActiveSeats(states[..k])
      invariant |active| == |seats| && forall t :: 0 <= t < |seats| ==> active[t] == players[seats[t]]
    {
      assert states[..k + 1][..k] == states[..k];
      if !players[k].folded {
        active := active + [players[k]];
        seats := seats + [k];
      }
    }
    assert states[..|players|] == states;
    CollectedMembers(players, active, seats);
  }

  /** The players at the non-folded seats are exactly the players that have not folded. */
  lemma CollectedMembers(players: seq<Player>, active: seq<Player>, seats: seq<nat>)
    requires seats == ActiveSeats(States(players))
    requires |active| == |seats| && forall t :: 0 <= t < |seats| ==> active[t] == players[seats[t]]
    ensures forall p :: p in active <==> p in players && !p.folded
  {
    var states := States(players);
    forall p ensures p in active <==> p in players && !p.folded {
      if p in active {
        var t :| 0 <= t < |active| && active[t] == p;
        assert seats[t] in seats && states[seats[t]].folded == p.folded;
      }
      if p in players && !p.folded {
        var k :| 0 <= k < |players| && players[k] == p;
        assert states[k].folded == p.folded;
        var t :| 0 <= t < |seats| && seats[t] == k;
        assert active[t] == p;
      }
    }
  }

  /** One pass over the active players that keeps the best strength met so far and the
      players holding it, starting from -1 and restarting the list on a strictly better hand. */
  method StrongestPlayers(players: seq<Player>, active: seq<Player>, ghost seats: seq<nat>, ghost strengths: seq<int>)
    returns (winners: seq<Player>, ghost winnerSeats: seq<nat>)
    requires |strengths| == |players|
    requires |active| == |seats|
    requires forall t :: 0 <= t < |seats| ==> seats[t] < |players| && active[t] == players[seats[t]]
    requires forall t :: 0 <= t < |seats| ==> strengths[seats[t]] == EvaluateHand(active[t].hand)
    ensures winnerSeats == AtStrength(strengths, seats, MaxStrength(strengths, seats))
    ensures |winners| == |winnerSeats|
    ensures forall u :: 0 <= u < |winners| ==> winnerSeats[u] < |players| && winners[u] == players[winnerSeats[u]]
  {
    var maxStrength := -1;
    winners := [];
    winnerSeats := [];
    for t := 0 to |active|
      invariant maxStrength == MaxStrength(strengths, seats[..t])
      invariant winnerSeats == AtStrength(strengths, seats[..t], maxStrength)
      invariant |winners| == |winnerSeats|
      invariant forall u :: 0 <= u < |winners| ==> winnerSeats[u] < |players| && winners[u] == players[winnerSeats[u]]
    {
      TrackBestStep(strengths, seats, t);
      var player := active[t];
      var strength := player.HandStrength();
      assert strength == strengths[seats[t]];
      if strength > maxStrength {
        maxStrength := strength;
        winners := [player];
        winnerSeats := [seats[t]];
      } else if strength == maxStrength {
        winners := winners + [player];
        winnerSeats := winnerSeats + [seats[t]];
      }
    }
    assert seats[..|active|] == seats;
  }

  /** One step of the pass: a strictly better strength restarts the list of holders, an
      equal one joins it, a lower one is skipped. */
  lemma TrackBestStep(strengths: seq<int>, seats: seq<nat>, t: nat)
    requires t < |seats| && forall u :: 0 <= u < |seats| ==> seats[u] < |strengths|
    ensures var m := MaxStrength(strengths, seats[..t]);
      var s := strengths[seats[t]];
      var m' := if s > m then s else m;
      && MaxStrength(strengths, seats[..t + 1]) == m'
      && AtStrength(strengths, seats[..t + 1], m') ==
           (if s > m then [seats[t]] else if s == m then AtStrength(strengths, seats[..t], m) + [seats[t]]
            else AtStrength(strengths, seats[..t], m))
  {
    var q := seats[..t + 1];
    assert q[..t] == seats[..t] && q[t] == seats[t];
    var m := MaxStrength(strengths, seats[..t]);
    var s := strengths[seats[t]];
    if s > m {
      AtStrengthNone(strengths, seats[..t], s);
    }
  }

  /** Credits `amount` to each listed winner once. */
  method PayEach(players: seq<Player>, winners: seq<Player>, ghost winnerSeats: seq<nat>, amount: int)
    requires Distinct(players) && Ascending(winnerSeats)
    requires |winners| == |winnerSeats|
    requires forall u :: 0 <= u < |winners| ==> winnerSeats[u] < |players| && winners[u] == players[winnerSeats[u]]
    modifies set p | p in players
    ensures forall k :: 0 <= k < |players| ==>
      players[k].State() == if k in winnerSeats then Credit(old(players[k].State()), amount) else old(players[k].State())
  {
    for t := 0 to |winners|
      invariant forall k :: 0 <= k < |players| ==>
        players[k].State() == if k in winnerSeats[..t] then Credit(old(players[k].State()), amount) else old(players[k].State())
    {
      assert winnerSeats[..t + 1] == winnerSeats[..t] + [winnerSeats[t]];
      assert winnerSeats[t] !in winnerSeats[..t];
      winners[t].Win(amount);
    }
    assert winnerSeats[..|winners|] == winnerSeats;
  }

  /** The source's showdown: nothing happens when every player folded, a sole remaining
      player wins the pot, and otherwise the strongest split it. */
  method DetermineWinner(players: seq<Player>, pot: int)
    requires Distinct(players)
    modifies set p | p in players
    ensures States(players) == Payout(old(States(players)), pot)
  {
    ghost var states := States(players);
    var active: seq<Player>;
    ghost var seats: seq<nat>;
    active, seats := CollectActive(players);
    if |active| == 0 {
      return;
    }
    if |active| == 1 {
      active[0].Win(pot);
      assert forall j :: 0 <= j < |players| && j != seats[0] ==> players[j] != active[0];
      return;
    }
    SplitAmongStrongest(players, active, seats, pot);
  }

  /** Two or more players remain: the strongest share the pot, the remainder is dropped. */
  method SplitAmongStrongest(players: seq<Player>, active: seq<Player>, ghost seats: seq<nat>, pot: int)
    requires Distinct(players)
    requires seats == ActiveSeats(States(players)) && |seats| >= 2
    requires |active| == |seats| && forall t :: 0 <= t < |seats| ==> active[t] == players[seats[t]]
    modifies set p | p in players
    ensures States(players) == Payout(old(States(players)), pot)
  {
    ghost var states := States(players);
    var winners: seq<Player>;
    ghost var winnerSeats: seq<nat>;
    winners, winnerSeats := StrongestPlayers(players, active, seats, Strengths(states));
    assert winnerSeats == Winners(states);
    WinnersNonEmpty(states);
    WinnersAscending(states);
    var winnings := JavaDiv(pot, |winners|);
    PayEach(players, winners, winnerSeats, winnings);
    PayoutSplits(states, States(players), pot);
  }

  lemma PayoutSplits(states: seq<PlayerState>, now: seq<PlayerState>, pot: int)
    requires |ActiveSeats(states)| >= 2 && Winners(states) != [] && |now| == |states|
    requires forall k :: 0 <= k < |states| ==>
      now[k] == if k in Winners(states) then Credit(states[k], JavaDiv(pot, |Winners(states)|)) else states[k]
    ensures now == Payout(states, pot)
  {
  }

  /** No seat among those given has strength m when m exceeds their maximum. */
  lemma AtStrengthNone(strengths: seq<int>, seats: seq<nat>, m: int)
    requires forall t :: 0 <= t < |seats| ==> seats[t] < |strengths|
    requires m > MaxStrength(strengths, seats)
    ensures AtStrength(strengths, seats, m) == []
  {
    MaxStrengthBounds(strengths, seats);
    AtStrengthMembers(strengths, seats, m);
  }
}
