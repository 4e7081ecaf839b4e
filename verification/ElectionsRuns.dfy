/** The election itself, the prime, genesis, and every run of the elections pallet. */
module ElectionsRuns {
  import opened Totals
  import opened Elections
  import opened ElectionsTheorems

  // ------------------------------------------------------------ seats from winners

  ghost predicate Won(winners: seq<Winner>, a: Account) {
    exists i :: 0 <= i < |winners| && winners[i].who == a && winners[i].support > 0
  }

  ghost predicate Distinct(winners: seq<Winner>) {
    forall i, j :: 0 <= i < j < |winners| ==> winners[i].who != winners[j].who
  }

  lemma {:induction false} WonSplit(winners: seq<Winner>, a: Account)
    requires |winners| > 0
    ensures var n := |winners| - 1;
            Won(winners, a) <==> Won(winners[..n], a) || (winners[n].who == a && winners[n].support > 0)
  {
  }

  /** Each backed winner has one seat, with its recorded deposit, and no one else has any. */
  lemma {:induction false} SeatsAreWon(roll: seq<SeatHolder>, winners: seq<Winner>, a: Account)
    requires Distinct(winners)
    ensures Count(Seats(roll, winners), a) == if Won(winners, a) then 1 else 0
    ensures Deposits(Seats(roll, winners), a) == if Won(winners, a) then DepositOf(roll, a) else 0
    ensures |Seats(roll, winners)| <= |winners|
  {
    if |winners| == 0 {
    } else {
      var n := |winners| - 1;
      var init, w := Seats(roll, winners[..n]), winners[n];
      SeatsAreWon(roll, winners[..n], a);
      WonSplit(winners, a);
      if w.support > 0 {
        var h := SeatHolder(w.who, w.stake, DepositOf(roll, w.who));
        Append(init, [h], a);
        Single(h, a);
        assert forall i :: 0 <= i < n ==> winners[..n][i].who == winners[i].who;
      }
    }
  }

  lemma {:induction false} DepositOfIs(roll: seq<SeatHolder>, a: Account)
    requires Count(roll, a) <= 1
    ensures DepositOf(roll, a) == Deposits(roll, a)
    ensures Position(roll, a) < |roll| <==> Count(roll, a) == 1
  {
    CountListed(roll, a);
    if Position(roll, a) < |roll| { DepositAt(roll, Position(roll, a)); }
  }

  // ------------------------------------------------------------- slashing losers

  lemma {:induction false} SlashLosersAt(held: map<Account, nat>, roll: seq<SeatHolder>, seats: seq<SeatHolder>,
                                         a: Account)
    ensures At(SlashLosers(held, roll, seats), a)
         == if Listed(seats, a) then At(held, a) else SatSub(At(held, a), Deposits(roll, a))
  {
    if |roll| == 0 {
    } else {
      SlashLosersAt(held, roll[..|roll| - 1], seats, a);
    }
  }

  /** What the slashes could not collect. */
  function Uncollected(held: map<Account, nat>, roll: seq<SeatHolder>, seats: seq<SeatHolder>): nat {
    if |roll| == 0 then 0
    else
      var init, h := roll[..|roll| - 1], roll[|roll| - 1];
      Uncollected(held, init, seats)
      + if Listed(seats, h.who) then 0 else SatSub(h.deposit, At(SlashLosers(held, init, seats), h.who))
  }

  /** Every loser is slashed exactly once and in full. */
  lemma {:induction false} SlashesCollect(held: map<Account, nat>, roll: seq<SeatHolder>, seats: seq<SeatHolder>)
    requires forall a :: Count(roll, a) <= 1 && Deposits(roll, a) <= At(held, a)
    ensures Uncollected(held, roll, seats) == 0
  {
    if |roll| == 0 {
    } else {
      var init, h := roll[..|roll| - 1], roll[|roll| - 1];
      forall a ensures Count(init, a) <= 1 && Deposits(init, a) <= At(held, a) {
        assert Count(roll, a) <= 1 && Deposits(roll, a) <= At(held, a);
      }
      SlashesCollect(held, init, seats);
      SlashLosersAt(held, init, seats, h.who);
      assert Deposits(roll, h.who) <= At(held, h.who);
    }
  }

  // ------------------------------------------------------------------ the prime

  /** A ballot that names an account once, in position p, gives it the stake times what p leaves of the
      highest multiplier; one that does not name it gives nothing. */
  lemma {:induction false} BallotWeighs(c: Config, v: Voter, who: Account, n: nat, p: nat)
    requires n <= |v.votes| && forall i :: 0 <= i < n && i != p ==> v.votes[i] != who
    ensures Ballot(c, v, who, n) == if p < n && v.votes[p] == who then v.stake * SatSub(c.maxVotesPerVoter, p) else 0
  {
    if n == 0 {
    } else {
      BallotWeighs(c, v, who, n - 1, p);
    }
  }

  /** The prime has the highest weighted approval of all members, and the highest account id among
      those that tie. */
  lemma {:induction false} PrimeIsBest(c: Config, voting: map<Account, Voter>, members: seq<SeatHolder>, m: Account)
    requires Sorted(members) && Listed(members, m)
    ensures var p := Prime(c, voting, members);
            && p.Some? && Listed(members, p.value)
            && Approval(c, voting, m) <= Approval(c, voting, p.value)
            && (Approval(c, voting, m) == Approval(c, voting, p.value) ==> m <= p.value)
  {
    var scores := Approvals(c, voting, members);
    var best := LastMax(scores, |members|);
    var i :| 0 <= i < |members| && members[i].who == m;
    assert scores[i] <= scores[best];
    if best < i { assert scores[i] < scores[best]; }
  }

  lemma {:induction false} PrimeIsMember(c: Config, voting: map<Account, Voter>, members: seq<SeatHolder>)
    ensures Prime(c, voting, members).Some? ==> Listed(members, Prime(c, voting, members).value)
  {
  }

  /** No position of any ballot exceeds the multiplier it is subtracted from. */
  lemma {:induction false} PositionsFit(c: Config, s: State, v: Account, p: nat)
    requires Inv(c, s) && v in s.voting && p < |s.voting[v].votes|
    ensures p <= c.maxVotesPerVoter
  {
    assert |s.voting[v].votes| <= Max(1, c.maxVotesPerVoter);
  }

  // --------------------------------------------------------------- the election

  lemma {:induction false} SplitCounts(hs: seq<SeatHolder>, n: nat, a: Account)
    requires n <= |hs|
    ensures Count(hs, a) == Count(hs[..n], a) + Count(hs[n..], a)
    ensures Deposits(hs, a) == Deposits(hs[..n], a) + Deposits(hs[n..], a)
  {
    Append(hs[..n], hs[n..], a);
    assert hs[..n] + hs[n..] == hs;
  }

  /** Splitting, sorting and reversing the seats changes no count and no deposit. */
  lemma {:induction false} SplitSeats(seats: seq<SeatHolder>, n: nat, a: Account)
    requires n <= |seats|
    ensures var all := SortById(seats[..n]) + Reversed(seats[n..]);
            Count(all, a) == Count(seats, a) && Deposits(all, a) == Deposits(seats, a)
  {
    SplitCounts(seats, n, a);
    SortCounts(seats[..n], a);
    ReversedCounts(seats[n..], a);
    Append(SortById(seats[..n]), Reversed(seats[n..]), a);
  }

  ghost predicate Electable(c: Config, s: State, winners: seq<Winner>) {
    Inv(c, s) && IsOutcome(Roll(s), winners, c.desiredMembers + c.desiredRunnersUp)
  }

  lemma {:induction false} InstalledRoll(c: Config, s: State, winners: seq<Winner>, a: Account)
    requires Electable(c, s, winners)
    ensures var s' := Install(c, s, winners);
            && Count(Roll(s'), a) == (if Won(winners, a) then 1 else 0)
            && Deposits(Roll(s'), a) == (if Won(winners, a) then Deposits(Roll(s), a) else 0)
            && (Won(winners, a) ==> Count(Roll(s), a) == 1)
  {
    var s', seats := Install(c, s, winners), Seats(Roll(s), winners);
    var n := Min(c.desiredMembers, |seats|);
    assert Roll(s') == SortById(seats[..n]) + Reversed(seats[n..]);
    SeatsAreWon(Roll(s), winners, a);
    SplitSeats(seats, n, a);
    assert Count(Roll(s), a) <= 1;
    DepositOfIs(Roll(s), a);
    CountListed(Roll(s), a);
  }

  lemma {:induction false} InstalledHold(c: Config, s: State, winners: seq<Winner>, a: Account)
    ensures var s' := Install(c, s, winners);
            At(s'.held, a) == if Listed(Roll(s'), a) then At(s.held, a) else SatSub(At(s.held, a), Deposits(Roll(s), a))
  {
    var s' := Install(c, s, winners);
    assert Roll(s') == s'.members + s'.runnersUp;
    SlashLosersAt(s.held, Roll(s), s'.members + s'.runnersUp, a);
  }

  /** After a successful election everyone who stood is either seated with the same deposit and
      hold, or has lost exactly that deposit and has no hold left; nobody else is affected. */
  lemma {:induction false} ElectionSettles(c: Config, s: State, winners: seq<Winner>, a: Account)
    requires Electable(c, s, winners)
    ensures var s' := Install(c, s, winners);
            if Listed(Roll(s), a) && Won(winners, a)
            then Listed(Roll(s'), a) && Deposits(Roll(s'), a) == Deposits(Roll(s), a) && At(s'.held, a) == At(s.held, a)
            else !Listed(Roll(s'), a) && At(s'.held, a) == 0
    ensures At(Install(c, s, winners).held, a) == Deposits(Roll(Install(c, s, winners)), a)
    ensures Won(winners, a) ==> Listed(Roll(s), a)
  {
    var s' := Install(c, s, winners);
    InstalledRoll(c, s, winners, a);
    CountListed(Roll(s), a);
    CountListed(Roll(s'), a);
    InstalledHold(c, s, winners, a);
    assert At(s.held, a) == Deposits(Roll(s), a);
  }

  /** The slashes leave no remainder, and the defensive zero deposit is never used. */
  lemma {:induction false} ElectionSlashesInFull(c: Config, s: State, winners: seq<Winner>)
    requires Electable(c, s, winners)
    ensures var s' := Install(c, s, winners);
            Uncollected(s.held, Roll(s), s'.members + s'.runnersUp) == 0
    ensures forall i :: 0 <= i < |winners| ==> Position(Roll(s), winners[i].who) < |Roll(s)|
  {
    var s' := Install(c, s, winners);
    forall a ensures Count(Roll(s), a) <= 1 && Deposits(Roll(s), a) <= At(s.held, a) {
      assert Count(Roll(s), a) <= 1 && At(s.held, a) == Deposits(Roll(s), a);
    }
    SlashesCollect(s.held, Roll(s), s'.members + s'.runnersUp);
  }

  lemma {:induction false} InstalledSorted(c: Config, s: State, winners: seq<Winner>)
    requires Electable(c, s, winners)
    ensures var s' := Install(c, s, winners); Sorted(s'.members) && SizesOk(c, s')
  {
    var seats := Seats(Roll(s), winners);
    var n := Min(c.desiredMembers, |seats|);
    forall a ensures Count(seats[..n], a) <= 1 {
      SeatsAreWon(Roll(s), winners, a);
      SplitCounts(seats, n, a);
    }
    SortSorts(seats[..n]);
    SortLength(seats[..n]);
    SeatsAreWon(Roll(s), winners, 0);
    ReversedCounts(seats[n..], 0);
  }

  lemma {:induction false} InsertHas(hs: seq<SeatHolder>, i: nat, h: SeatHolder, x: SeatHolder)
    requires i <= |hs|
    ensures x in InsertAt(hs, i, h) <==> x in hs || x == h
  {
  }

  lemma {:induction false} SortHas(hs: seq<SeatHolder>, x: SeatHolder)
    ensures x in SortById(hs) <==> x in hs
  {
    if |hs| == 0 {
    } else {
      var init, h := hs[..|hs| - 1], hs[|hs| - 1];
      SortHas(init, x);
      InsertHas(SortById(init), Slot(SortById(init), h.who), h, x);
      assert hs == init + [h];
    }
  }

  lemma {:induction false} ReversedAt(hs: seq<SeatHolder>, k: nat)
    requires k < |hs|
    ensures |Reversed(hs)| == |hs| && Reversed(hs)[k] == hs[|hs| - 1 - k]
  {
    var init := hs[..|hs| - 1];
    ReversedCounts(init, 0);
    if k == 0 {
    } else {
      ReversedAt(init, k - 1);
    }
  }

  /** A seat taken by one of the winners, with backing, at its stake. */
  ghost predicate WonBy(winners: seq<Winner>, h: SeatHolder) {
    exists j :: 0 <= j < |winners| && winners[j].who == h.who && winners[j].stake == h.stake && winners[j].support > 0
  }

  lemma {:induction false} SeatsRecord(roll: seq<SeatHolder>, winners: seq<Winner>, i: nat)
    requires i < |Seats(roll, winners)|
    ensures WonBy(winners, Seats(roll, winners)[i])
  {
    var n, h := |winners| - 1, Seats(roll, winners)[i];
    if i < |Seats(roll, winners[..n])| {
      SeatsRecord(roll, winners[..n], i);
      var j :| 0 <= j < n && winners[..n][j].who == h.who && winners[..n][j].stake == h.stake
          && winners[..n][j].support > 0;
      assert winners[j].who == h.who;
    }
  }

  /** The first seats make the members, the others the runners-up from worst to best, so that the
      best of them is the next to be taken from the end. */
  lemma {:induction false} SeatedByRank(c: Config, s: State, winners: seq<Winner>)
    ensures var s', seats := Install(c, s, winners), Seats(Roll(s), winners);
            var n := Min(c.desiredMembers, |seats|);
            && (forall i :: 0 <= i < |seats| ==> WonBy(winners, seats[i]))
            && (forall h :: h in s'.members <==> h in seats[..n])
            && |s'.runnersUp| == |seats| - n
            && (forall k :: 0 <= k < |s'.runnersUp| ==> s'.runnersUp[k] == seats[|seats| - 1 - k])
  {
    var s', seats := Install(c, s, winners), Seats(Roll(s), winners);
    var n := Min(c.desiredMembers, |seats|);
    forall i | 0 <= i < |seats| ensures WonBy(winners, seats[i]) {
      SeatsRecord(Roll(s), winners, i);
    }
    forall h ensures h in s'.members <==> h in seats[..n] {
      SortHas(seats[..n], h);
    }
    ReversedCounts(seats[n..], 0);
    forall k | 0 <= k < |s'.runnersUp| ensures s'.runnersUp[k] == seats[|seats| - 1 - k] {
      ReversedAt(seats[n..], k);
    }
  }

  lemma {:induction false} InstalledInSync(c: Config, s: State, winners: seq<Winner>)
    requires InSync(s)
    ensures InSync(Install(c, s, winners))
  {
    var s' := Install(c, s, winners);
    var incoming, outgoing := Minus(Ids(s'.members), Ids(s.members)), Minus(Ids(s.members), Ids(s'.members));
    MinusIs(Ids(s'.members), Ids(s.members));
    MinusIs(Ids(s.members), Ids(s'.members));
    DiffBalances(Told(s.initial, s.reports), s, s', incoming, outgoing);
    PrimeIsMember(c, s.voting, s'.members);
    TellKeepsSync(s, s', incoming, outgoing);
  }

  lemma {:induction false} DiffBalances(was: seq<Account>, s: State, s': State, incoming: seq<Account>,
                                        outgoing: seq<Account>)
    requires SetOf(was) == SetOf(Ids(s.members))
    requires SetOf(incoming) == SetOf(Ids(s'.members)) - SetOf(Ids(s.members))
    requires SetOf(outgoing) == SetOf(Ids(s.members)) - SetOf(Ids(s'.members))
    ensures Balanced(was, Report(incoming, outgoing, Ids(s'.members)))
  {
  }

  lemma {:induction false} ElectionKeepsInvariant(c: Config, s: State, winners: seq<Winner>)
    requires Electable(c, s, winners)
    ensures Inv(c, Install(c, s, winners))
  {
    var s' := Install(c, s, winners);
    InstalledSorted(c, s, winners);
    InstalledInSync(c, s, winners);
    forall a ensures Count(Roll(s'), a) <= 1 && At(s'.held, a) == Deposits(Roll(s'), a) {
      InstalledRoll(c, s, winners, a);
      ElectionSettles(c, s, winners, a);
    }
  }

  /** How many of the winners have backing. */
  function Backed(winners: seq<Winner>): nat {
    if |winners| == 0 then 0
    else Backed(winners[..|winners| - 1]) + if winners[|winners| - 1].support > 0 then 1 else 0
  }

  lemma {:induction false} SeatsAreBacked(roll: seq<SeatHolder>, winners: seq<Winner>)
    ensures |Seats(roll, winners)| == Backed(winners)
  {
    if |winners| == 0 {
    } else {
      SeatsAreBacked(roll, winners[..|winners| - 1]);
    }
  }

  /** What an election settles for one account: a backed winner is seated once, keeping its deposit and
      its hold; anyone else is on no list and has no hold left. */
  ghost predicate Settled(s: State, s': State, winners: seq<Winner>, a: Account) {
    if Won(winners, a)
    then && Listed(Roll(s), a) && Count(s'.members, a) + Count(s'.runnersUp, a) == 1
         && Deposits(Roll(s'), a) == Deposits(Roll(s), a) && At(s'.held, a) == At(s.held, a)
    else !Listed(Roll(s'), a) && At(s'.held, a) == 0
  }

  /** The first seats make the members, the others the runners-up from worst to best. */
  ghost predicate ByRank(s': State, seats: seq<SeatHolder>) {
    && |s'.members| + |s'.runnersUp| == |seats|
    && (forall h :: h in s'.members <==> h in seats[..|s'.members|])
    && (forall k :: 0 <= k < |s'.runnersUp| ==> s'.runnersUp[k] == seats[|seats| - 1 - k])
  }

  /** What an election leaves. */
  ghost predicate Elected(c: Config, s: State, s': State, winners: seq<Winner>) {
    && s'.rounds == s.rounds + 1 && s'.candidates == [] && s'.voting == s.voting
    && (forall a :: Settled(s, s', winners, a))
    && |s'.members| == Min(c.desiredMembers, Backed(winners))
    && |s'.members| + |s'.runnersUp| == Backed(winners)
    && ByRank(s', Seats(Roll(s), winners))
    && |s'.reports| == |s.reports| + 1 && s'.reports[..|s.reports|] == s.reports
    && (forall m :: Listed(s'.members, m) ==> IsBest(c, s, s', m))
  }

  /** The prime outranks or equals a member, by account id where their approvals tie. */
  ghost predicate IsBest(c: Config, s: State, s': State, m: Account) {
    && s'.prime.Some? && Listed(s'.members, s'.prime.value)
    && Approval(c, s.voting, m) <= Approval(c, s.voting, s'.prime.value)
    && (Approval(c, s.voting, m) == Approval(c, s.voting, s'.prime.value) ==> m <= s'.prime.value)
  }

  lemma {:induction false} InstallSettles(c: Config, s: State, winners: seq<Winner>, a: Account)
    requires Electable(c, s, winners)
    ensures Settled(s, Install(c, s, winners), winners, a)
  {
    var s' := Install(c, s, winners);
    ElectionSettles(c, s, winners, a);
    InstalledRoll(c, s, winners, a);
    RollSplit(s', a);
    assert s'.candidates == [];
  }

  lemma {:induction false} InstallSizes(c: Config, s: State, winners: seq<Winner>)
    ensures var s' := Install(c, s, winners);
            && |s'.members| == Min(c.desiredMembers, Backed(winners))
            && |s'.members| + |s'.runnersUp| == Backed(winners)
  {
    var seats := Seats(Roll(s), winners);
    var n := Min(c.desiredMembers, |seats|);
    SeatsAreBacked(Roll(s), winners);
    SortLength(seats[..n]);
    ReversedCounts(seats[n..], 0);
  }

  lemma {:induction false} InstallElects(c: Config, s: State, winners: seq<Winner>)
    requires Electable(c, s, winners)
    ensures Elected(c, s, Install(c, s, winners), winners)
  {
    var s' := Install(c, s, winners);
    InstallSizes(c, s, winners);
    SeatsAreBacked(Roll(s), winners);
    SeatedByRank(c, s, winners);
    InstalledSorted(c, s, winners);
    forall a ensures Settled(s, s', winners, a) {
      InstallSettles(c, s, winners, a);
    }
    forall m | Listed(s'.members, m) ensures IsBest(c, s, s', m) {
      PrimeIsBest(c, s.voting, s'.members, m);
    }
  }

  /** An election can take place: someone stands, and there are not too many voters. */
  predicate CanElect(c: Config, s: State) {
    |s.candidates| + |s.members| + |s.runnersUp| > 0 && |s.voting| <= c.maxVoters
  }

  /** An election takes effect if and only if someone stands, there are not too many voters and the
      election method has an answer. A round is counted exactly then; otherwise nothing changes. */
  lemma {:induction false} ElectionTakesEffectIff(c: Config, s: State, outcome: Option<seq<Winner>>)
    requires Inv(c, s)
    requires outcome.Some? ==> IsOutcome(Roll(s), outcome.value, c.desiredMembers + c.desiredRunnersUp)
    ensures var s' := Phragmen(c, s, outcome);
            && (s'.rounds == s.rounds + 1 <==> CanElect(c, s) && outcome.Some?)
            && (CanElect(c, s) && outcome.Some? ==> Elected(c, s, s', outcome.value))
            && (!CanElect(c, s) || outcome.None? ==> s' == s)
  {
    assert |Roll(s)| == |s.candidates| + |s.members| + |s.runnersUp|;
    if outcome.Some? { InstallElects(c, s, outcome.value); }
  }

  // -------------------------------------------------------------------- genesis

  lemma {:induction false} SeedIsSound(c: Config, list: seq<(Account, nat)>, balances: map<Account, nat>, a: Account)
    requires Seed(c, list, balances).Some?
    ensures var (members, voting) := Seed(c, list, balances).value;
            && Sorted(members) && |members| == |list| && BallotsOk(c, voting)
            && Count(members, a) == (if a in Names(list) then 1 else 0)
            && Deposits(members, a) == 0
  {
    if |list| == 0 {
    } else {
      var n := |list| - 1;
      var (who, stake) := list[n];
      SeedIsSound(c, list[..n], balances, a);
      SeedIsSound(c, list[..n], balances, who);
      var members := Seed(c, list[..n], balances).value.0;
      var h := SeatHolder(who, stake, 0);
      InsertKeepsSorted(members, h);
      Inserted(members, Slot(members, who), h, a);
      FoundIffListed(members, who);
      CountListed(members, who);
      assert Names(list) == Names(list[..n]) + [who];
    }
  }

  /** No account twice, and no stake beyond the balance. */
  ghost predicate Seedable(list: seq<(Account, nat)>, balances: map<Account, nat>) {
    && (forall i, j :: 0 <= i < j < |list| ==> list[i].0 != list[j].0)
    && (forall i :: 0 <= i < |list| ==> list[i].1 <= At(balances, list[i].0))
  }

  lemma {:induction false} SeedableSplit(list: seq<(Account, nat)>, balances: map<Account, nat>)
    requires |list| > 0
    ensures var n := |list| - 1;
            Seedable(list, balances) <==>
              Seedable(list[..n], balances) && list[n].0 !in Names(list[..n]) && list[n].1 <= At(balances, list[n].0)
  {
    var n := |list| - 1;
    var init := list[..n];
    assert forall i :: 0 <= i < n ==> init[i] == list[i] && Names(init)[i] == list[i].0;
  }

  lemma {:induction false} SeedSplit(c: Config, list: seq<(Account, nat)>, balances: map<Account, nat>)
    requires |list| > 0
    ensures var n := |list| - 1;
            Seed(c, list, balances).Some? <==>
              && Seed(c, list[..n], balances).Some? && list[n].0 !in Names(list[..n])
              && list[n].1 <= At(balances, list[n].0)
  {
    var init, who := list[..|list| - 1], list[|list| - 1].0;
    if Seed(c, init, balances).Some? {
      var members := Seed(c, init, balances).value.0;
      SeedIsSound(c, init, balances, who);
      FoundIffListed(members, who);
      CountListed(members, who);
    }
  }

  lemma {:induction false} SeedSucceedsIff(c: Config, list: seq<(Account, nat)>, balances: map<Account, nat>)
    ensures Seed(c, list, balances).Some? <==> Seedable(list, balances)
  {
    if |list| == 0 {
    } else {
      SeedSucceedsIff(c, list[..|list| - 1], balances);
      SeedSplit(c, list, balances);
      SeedableSplit(list, balances);
    }
  }

  /** Genesis panics exactly on too many members, on a duplicate, or on a stake beyond the balance. */
  lemma {:induction false} GenesisPanicsIff(c: Config, list: seq<(Account, nat)>, balances: map<Account, nat>)
    ensures Genesis(c, list, balances).None? <==> |list| > c.desiredMembers || !Seedable(list, balances)
  {
    SeedSucceedsIff(c, list, balances);
  }

  /** Every genesis member is seated with its stake and votes for itself with it. */
  lemma {:induction false} SeedRecords(c: Config, list: seq<(Account, nat)>, balances: map<Account, nat>, i: nat)
    requires Seed(c, list, balances).Some? && i < |list|
    ensures var (members, voting) := Seed(c, list, balances).value;
            && SeatHolder(list[i].0, list[i].1, 0) in members
            && list[i].0 in voting && voting[list[i].0] == Voter([list[i].0], list[i].1, c.votingLockPeriod)
  {
    var n := |list| - 1;
    var init, h := list[..n], SeatHolder(list[n].0, list[n].1, 0);
    var members := Seed(c, init, balances).value.0;
    SeedSplit(c, list, balances);
    InsertHas(members, Slot(members, h.who), h, SeatHolder(list[i].0, list[i].1, 0));
    if i == n {
    } else {
      SeedRecords(c, init, balances, i);
      assert Names(init)[i] == list[i].0;
    }
  }

  /** Genesis members hold no bond and none is recorded for them. */
  lemma {:induction false} GenesisInvariant(c: Config, list: seq<(Account, nat)>, balances: map<Account, nat>)
    requires Genesis(c, list, balances).Some?
    ensures Inv(c, Genesis(c, list, balances).value)
  {
    var s := Genesis(c, list, balances).value;
    SeedIsSound(c, list, balances, 0);
    forall a
      ensures Count(Roll(s), a) <= 1 && At(s.held, a) == Deposits(Roll(s), a)
      ensures a in SetOf(Names(list)) <==> a in SetOf(Ids(s.members))
    {
      SeedIsSound(c, list, balances, a);
      RollSplit(s, a);
      IdsListed(s.members, a);
    }
  }

  // ------------------------------------------------------------------- every run

  datatype Call =
    | SubmitCall(who: Account, claimed: nat, canHold: bool)
    | RenounceCall(who: Account, role: Renouncing)
    | RemoveMemberCall(who: Account, slash: bool, rerun: bool, outcome: Option<seq<Winner>>)
    | VoteCall(who: Account, votes: seq<Account>, value: nat, now: nat, total: nat, minimum: nat)
    | RemoveVoterCall(who: Account, now: nat)
    | ElectionCall(outcome: Option<seq<Winner>>)

  /** A failing call changes nothing. */
  function Or(s: State, r: Result<State>): State {
    if r.Ok? then r.value else s
  }

  ghost function Step(c: Config, s: State, call: Call): State {
    match call
    case SubmitCall(who, claimed, canHold) => Or(s, SubmitCandidacy(c, s, who, claimed, canHold))
    case RenounceCall(who, role) => Or(s, Renounce(s, who, role))
    case RemoveMemberCall(who, slash, rerun, outcome) => Or(s, RemoveMember(c, s, who, slash, rerun, outcome))
    case VoteCall(who, votes, value, now, total, minimum) => Or(s, Vote(c, s, who, votes, value, now, total, minimum))
    case RemoveVoterCall(who, now) => Or(s, RemoveVoter(s, who, now))
    case ElectionCall(outcome) => Phragmen(c, s, outcome)
  }

  ghost predicate OutcomeOk(c: Config, s: State, outcome: Option<seq<Winner>>) {
    outcome.Some? ==> IsOutcome(Roll(s), outcome.value, c.desiredMembers + c.desiredRunnersUp)
  }

  /** The election method keeps its contract on the roll it is given. */
  ghost predicate CallOk(c: Config, s: State, call: Call) {
    match call
    case ElectionCall(outcome) => OutcomeOk(c, s, outcome)
    case RemoveMemberCall(who, slash, _, outcome) => OutcomeOk(c, Or(s, RemoveAndReplace(s, who, slash)), outcome)
    case _ => true
  }

  lemma {:induction false} PhragmenKeepsInvariant(c: Config, s: State, outcome: Option<seq<Winner>>)
    requires Inv(c, s) && OutcomeOk(c, s, outcome)
    ensures Inv(c, Phragmen(c, s, outcome))
  {
    if outcome.Some? { ElectionKeepsInvariant(c, s, outcome.value); }
  }

  lemma {:induction false} RenounceKeepsInvariant(c: Config, s: State, who: Account, role: Renouncing)
    requires Inv(c, s) && Renounce(s, who, role).Ok?
    ensures Inv(c, Renounce(s, who, role).value) && Gone(s, Renounce(s, who, role).value, who)
  {
    match role
    case Member => ReplaceKeepsInvariant(c, s, who, false);
    case RunnerUp => RunnerUpLeaves(c, s, who);
    case Candidate(count) => CandidateLeaves(c, s, who, count);
  }

  lemma {:induction false} VotingKeepsInvariant(c: Config, s: State, voting: map<Account, Voter>)
    requires Inv(c, s) && BallotsOk(c, voting)
    ensures Inv(c, s.(voting := voting))
  {
    var s' := s.(voting := voting);
    assert Roll(s') == Roll(s);
  }

  /** So it is of the election call. */
  lemma {:induction false} ElectionCallTakesEffectIff(c: Config, s: State, outcome: Option<seq<Winner>>)
    requires Inv(c, s) && CallOk(c, s, ElectionCall(outcome))
    ensures var s' := Step(c, s, ElectionCall(outcome));
            && (s'.rounds == s.rounds + 1 <==> CanElect(c, s) && outcome.Some?)
            && (CanElect(c, s) && outcome.Some? ==> Elected(c, s, s', outcome.value))
            && (!CanElect(c, s) || outcome.None? ==> s' == s)
  {
    ElectionTakesEffectIff(c, s, outcome);
  }

  /** Every call keeps every invariant. */
  lemma {:induction false} StepKeepsInvariant(c: Config, s: State, call: Call)
    requires Inv(c, s) && CallOk(c, s, call)
    ensures Inv(c, Step(c, s, call))
  {
    match call
    case SubmitCall(who, claimed, canHold) =>
      if SubmitCandidacy(c, s, who, claimed, canHold).Ok? { SubmitKeepsInvariant(c, s, who, claimed, canHold); }
    case RenounceCall(who, role) =>
      if Renounce(s, who, role).Ok? { RenounceKeepsInvariant(c, s, who, role); }
    case RemoveMemberCall(who, slash, rerun, outcome) =>
      if RemoveAndReplace(s, who, slash).Ok? {
        ReplaceKeepsInvariant(c, s, who, slash);
        PhragmenKeepsInvariant(c, RemoveAndReplace(s, who, slash).value, outcome);
      }
    case VoteCall(who, votes, value, now, total, minimum) =>
      if Vote(c, s, who, votes, value, now, total, minimum).Ok? {
        VotingKeepsInvariant(c, s, Vote(c, s, who, votes, value, now, total, minimum).value.voting);
      }
    case RemoveVoterCall(who, now) => VotingKeepsInvariant(c, s, s.voting - {who});
    case ElectionCall(outcome) => PhragmenKeepsInvariant(c, s, outcome);
  }

  ghost function Exec(c: Config, s: State, calls: seq<Call>): State {
    if |calls| == 0 then s else Step(c, Exec(c, s, calls[..|calls| - 1]), calls[|calls| - 1])
  }

  ghost predicate RunOk(c: Config, s: State, calls: seq<Call>) {
    |calls| > 0 ==> RunOk(c, s, calls[..|calls| - 1]) && CallOk(c, Exec(c, s, calls[..|calls| - 1]), calls[|calls| - 1])
  }

  lemma {:induction false} RunKeepsInvariant(c: Config, s: State, calls: seq<Call>)
    requires Inv(c, s) && RunOk(c, s, calls)
    ensures Inv(c, Exec(c, s, calls))
  {
    if |calls| == 0 {
    } else {
      RunKeepsInvariant(c, s, calls[..|calls| - 1]);
      StepKeepsInvariant(c, Exec(c, s, calls[..|calls| - 1]), calls[|calls| - 1]);
    }
  }

  /** In every state reachable from any genesis: lists sorted, seats disjoint and within bounds,
      every hold equal to the recorded deposit, the prime a member, every report balanced. */
  lemma {:induction false} ReachableInvariant(c: Config, list: seq<(Account, nat)>, balances: map<Account, nat>,
                                              calls: seq<Call>)
    requires Genesis(c, list, balances).Some? && RunOk(c, Genesis(c, list, balances).value, calls)
    ensures Inv(c, Exec(c, Genesis(c, list, balances).value, calls))
  {
    GenesisInvariant(c, list, balances);
    RunKeepsInvariant(c, Genesis(c, list, balances).value, calls);
  }

  // ------------------------------------------------------- votes stay locked up

  /** The account votes with at least `stake`, locked up until at least block `until`. */
  ghost predicate LockedUp(s: State, who: Account, stake: nat, until: nat) {
    who in s.voting && stake <= s.voting[who].stake && until <= s.voting[who].lockupTill
  }

  /** A call made between the blocks `since` and `until`, while the account owns at least `stake`. */
  ghost predicate Within(call: Call, who: Account, stake: nat, since: nat, until: nat) {
    match call
    case VoteCall(w, _, _, now, total, _) => w == who ==> since <= now < until && stake <= total
    case RemoveVoterCall(w, now) => w == who ==> now < until
    case _ => true
  }

  lemma {:induction false} StepKeepsLockup(c: Config, s: State, call: Call, who: Account, stake: nat, since: nat)
    requires LockedUp(s, who, stake, since + c.votingLockPeriod)
    requires Within(call, who, stake, since, since + c.votingLockPeriod)
    ensures LockedUp(Step(c, s, call), who, stake, since + c.votingLockPeriod)
  {
  }

  /** Whatever calls follow a vote, until its lock-up ends the voter stays in place, and changes its
      vote only with at least the same stake and at least the same lock-up. */
  lemma {:induction false} VotesStayLockedUp(c: Config, s: State, calls: seq<Call>, who: Account, stake: nat,
                                             since: nat)
    requires LockedUp(s, who, stake, since + c.votingLockPeriod)
    requires forall i :: 0 <= i < |calls| ==> Within(calls[i], who, stake, since, since + c.votingLockPeriod)
    ensures LockedUp(Exec(c, s, calls), who, stake, since + c.votingLockPeriod)
  {
    if |calls| == 0 {
    } else {
      var init := calls[..|calls| - 1];
      VotesStayLockedUp(c, s, init, who, stake, since);
      StepKeepsLockup(c, Exec(c, s, init), calls[|calls| - 1], who, stake, since);
    }
  }
}
