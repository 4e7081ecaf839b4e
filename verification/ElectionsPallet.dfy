/** The elections pallet over its storage, proved against the functions of `Elections`. */
module ElectionsPallet {
  import opened Totals
  import opened Elections
  import opened ElectionsTheorems
  import opened ElectionsRuns

  // ------------------------------------------------ counting votes for the prime

  /** What a list of ballots gives `who`. */
  ghost function Tally(c: Config, voters: seq<Voter>, who: Account): nat {
    if |voters| == 0 then 0
    else
      var v := voters[|voters| - 1];
      Tally(c, voters[..|voters| - 1], who) + Ballot(c, v, who, |v.votes|)
  }

  /** Storage is iterated in some order that visits every voter once. */
  ghost predicate Visits(order: seq<Account>, voting: map<Account, Voter>) {
    && (forall i, j :: 0 <= i < j < |order| ==> order[i] != order[j])
    && SetOf(order) == voting.Keys
  }

  function Collect(voting: map<Account, Voter>, order: seq<Account>): seq<Voter>
    requires forall i :: 0 <= i < |order| ==> order[i] in voting
  {
    if |order| == 0 then [] else Collect(voting, order[..|order| - 1]) + [voting[order[|order| - 1]]]
  }

  lemma {:induction false} VisitsInit(order: seq<Account>, voting: map<Account, Voter>)
    requires Visits(order, voting) && |order| > 0
    ensures order[|order| - 1] in voting && Visits(order[..|order| - 1], voting - {order[|order| - 1]})
  {
  }

  lemma {:induction false} CollectSame(voting: map<Account, Voter>, last: Account, order: seq<Account>)
    requires forall i :: 0 <= i < |order| ==> order[i] in voting && order[i] != last
    ensures Collect(voting - {last}, order) == Collect(voting, order)
  {
    if |order| == 0 {
    } else {
      CollectSame(voting, last, order[..|order| - 1]);
    }
  }

  lemma {:induction false} VisitsEach(order: seq<Account>, voting: map<Account, Voter>)
    requires Visits(order, voting)
    ensures forall i :: 0 <= i < |order| ==> order[i] in voting
  {
  }

  lemma {:induction false} VisitsAll(order: seq<Account>, voting: map<Account, Voter>)
    requires Visits(order, voting)
    ensures |order| == |voting|
    decreases |order|
  {
    if |order| == 0 {
      assert voting == map[];
    } else {
      var last := order[|order| - 1];
      VisitsInit(order, voting);
      VisitsAll(order[..|order| - 1], voting - {last});
      assert voting.Keys == (voting - {last}).Keys + {last};
    }
  }

  lemma {:induction false} BallotsSplit(c: Config, voting: map<Account, Voter>, last: Account, who: Account)
    requires last in voting
    ensures Total(Ballots(c, voting, who))
         == Ballot(c, voting[last], who, |voting[last].votes|) + Total(Ballots(c, voting - {last}, who))
  {
    TotalSplit(Ballots(c, voting, who), last);
    assert Ballots(c, voting, who) - {last} == Ballots(c, voting - {last}, who);
  }

  lemma {:induction false} CollectLast(c: Config, voting: map<Account, Voter>, order: seq<Account>, who: Account)
    requires |order| > 0 && forall i :: 0 <= i < |order| ==> order[i] in voting
    ensures var v := voting[order[|order| - 1]];
            var before := Tally(c, Collect(voting, order[..|order| - 1]), who);
            Tally(c, Collect(voting, order), who) == before + Ballot(c, v, who, |v.votes|)
  {
  }

  /** Whatever the order of iteration, the ballots add up to the same approval. */
  lemma {:induction false} OrderDoesNotMatter(c: Config, voting: map<Account, Voter>, order: seq<Account>, who: Account)
    requires Visits(order, voting) && forall i :: 0 <= i < |order| ==> order[i] in voting
    ensures Tally(c, Collect(voting, order), who) == Total(Ballots(c, voting, who))
    decreases |order|
  {
    if |order| == 0 {
      assert voting == map[];
      TotalZero(Ballots(c, voting, who));
    } else {
      var init, last := order[..|order| - 1], order[|order| - 1];
      VisitsInit(order, voting);
      VisitsEach(init, voting - {last});
      OrderDoesNotMatter(c, voting - {last}, init, who);
      CollectSame(voting, last, init);
      CollectLast(c, voting, order, who);
      BallotsSplit(c, voting, last, who);
    }
  }

  lemma {:induction false} CollectedFit(c: Config, voting: map<Account, Voter>, order: seq<Account>)
    requires BallotsOk(c, voting) && forall i :: 0 <= i < |order| ==> order[i] in voting
    ensures forall i :: 0 <= i < |Collect(voting, order)| ==>
      |Collect(voting, order)[i].votes| <= Max(1, c.maxVotesPerVoter)
  {
    if |order| == 0 {
    } else {
      CollectedFit(c, voting, order[..|order| - 1]);
    }
  }

  lemma {:induction false} SaturatingSum(x: nat, y: nat)
    ensures SatAdd(Min(x, MAX_BALANCE), Min(y, MAX_BALANCE)) == Min(x + y, MAX_BALANCE)
  {
  }

  lemma {:induction false} SlotIsOnly(hs: seq<SeatHolder>, i: nat, who: Account)
    requires Sorted(hs) && i < |hs|
    ensures hs[i].who == who <==> Slot(hs, who) == i && Found(hs, who)
  {
  }

  /** One ballot added to the scores; the weight of a position never underflows. */
  method CountBallot(c: Config, members: seq<SeatHolder>, v: Voter, scores: seq<nat>) returns (scores': seq<nat>)
    requires Sorted(members) && |scores| == |members| && |v.votes| <= Max(1, c.maxVotesPerVoter)
    requires forall i :: 0 <= i < |scores| ==> scores[i] <= MAX_BALANCE
    ensures |scores'| == |members|
    ensures forall i :: 0 <= i < |members| ==>
      scores'[i] == Min(scores[i] + Ballot(c, v, members[i].who, |v.votes|), MAX_BALANCE)
  {
    scores' := scores;
    for p := 0 to |v.votes|
      invariant |scores'| == |members|
      invariant forall i :: 0 <= i < |members| ==>
        scores'[i] == Min(scores[i] + Ballot(c, v, members[i].who, p), MAX_BALANCE)
    {
      var multiplier: nat := c.maxVotesPerVoter - p;
      var k := Slot(members, v.votes[p]);
      ghost var before := scores';
      if Found(members, v.votes[p]) {
        scores' := scores'[k := SatAdd(scores'[k], SatMul(v.stake, multiplier))];
      }
      forall i | 0 <= i < |members|
        ensures scores'[i] == Min(scores[i] + Ballot(c, v, members[i].who, p + 1), MAX_BALANCE)
      {
        SlotIsOnly(members, i, v.votes[p]);
        BallotGrows(c, v, members[i].who, p, scores[i], before[i]);
      }
    }
  }

  lemma {:induction false} BallotGrows(c: Config, v: Voter, who: Account, p: nat, base: nat, score: nat)
    requires p < |v.votes| && p <= c.maxVotesPerVoter && score == Min(base + Ballot(c, v, who, p), MAX_BALANCE)
    ensures Min(base + Ballot(c, v, who, p + 1), MAX_BALANCE)
         == if v.votes[p] == who then SatAdd(score, SatMul(v.stake, c.maxVotesPerVoter - p)) else score
  {
    SaturatingSum(base + Ballot(c, v, who, p), v.stake * (c.maxVotesPerVoter - p));
  }

  method PrimeVotes(c: Config, members: seq<SeatHolder>, voters: seq<Voter>) returns (scores: seq<nat>)
    requires Sorted(members)
    requires forall i :: 0 <= i < |voters| ==> |voters[i].votes| <= Max(1, c.maxVotesPerVoter)
    ensures |scores| == |members|
    ensures forall i :: 0 <= i < |members| ==> scores[i] == Min(Tally(c, voters, members[i].who), MAX_BALANCE)
  {
    scores := seq(|members|, _ => 0);
    for k := 0 to |voters|
      invariant |scores| == |members|
      invariant forall i :: 0 <= i < |members| ==> scores[i] == Min(Tally(c, voters[..k], members[i].who), MAX_BALANCE)
    {
      ghost var before := scores;
      scores := CountBallot(c, members, voters[k], scores);
      assert voters[..k + 1][..k] == voters[..k];
      forall i | 0 <= i < |members| ensures scores[i] == Min(Tally(c, voters[..k + 1], members[i].who), MAX_BALANCE) {
        assert scores[i] == Min(before[i] + Ballot(c, voters[k], members[i].who, |voters[k].votes|), MAX_BALANCE);
      }
    }
    assert voters[..|voters|] == voters;
  }

  /** The prime found by counting in any order is the one with the highest approval. */
  lemma {:induction false} CountedPrime(c: Config, voting: map<Account, Voter>, order: seq<Account>,
                                        members: seq<SeatHolder>, scores: seq<nat>)
    requires Visits(order, voting) && forall i :: 0 <= i < |order| ==> order[i] in voting
    requires |scores| == |members|
    requires forall i :: 0 <= i < |members| ==>
      scores[i] == Min(Tally(c, Collect(voting, order), members[i].who), MAX_BALANCE)
    ensures scores == Approvals(c, voting, members)
  {
    forall i | 0 <= i < |members| ensures scores[i] == Approval(c, voting, members[i].who) {
      OrderDoesNotMatter(c, voting, order, members[i].who);
    }
  }

  // -------------------------------------------------------------- the pallet

  /** The outcome of a call is `expected`; a failing one leaves the storage alone. */
  ghost predicate Outcome(r: Result<()>, before: State, after: State, expected: Result<State>) {
    match r
    case Ok(_) => expected == Ok(after)
    case Err(e) => expected == Err(e) && after == before
  }

  class Pallet {
    const config: Config
    var members: seq<SeatHolder>
    var runnersUp: seq<SeatHolder>
    var candidates: seq<SeatHolder>
    var rounds: nat
    var voting: map<Account, Voter>
    var held: map<Account, nat>
    var prime: Option<Account>
    const initial: seq<Account>
    var reports: seq<Report>

    ghost function View(): State
      reads this
    {
      State(members, runnersUp, candidates, rounds, voting, held, prime, initial, reports)
    }

    /** Lists sorted, seats disjoint and within bounds, every hold the recorded deposit, the prime a
        member, every report balanced. */
    ghost predicate Valid()
      reads this
    {
      Inv(config, View())
    }

    /** Genesis, where nothing panics. */
    constructor (c: Config, list: seq<(Account, nat)>, balances: map<Account, nat>)
      requires Genesis(c, list, balances).Some?
      ensures Valid()
      ensures config == c && Some(View()) == Genesis(c, list, balances)
    {
      config := c;
      runnersUp, candidates, rounds, held, prime, reports := [], [], 0, map[], None, [];
      initial := Names(list);
      var seats: seq<SeatHolder>, voters: map<Account, Voter> := [], map[];
      SeedPrefix(c, list, balances);
      for i := 0 to |list|
        invariant Seed(c, list[..i], balances) == Some((seats, voters))
      {
        assert list[..i + 1][..i] == list[..i];
        SeedAt(c, list, balances, i + 1);
        var (who, stake) := list[i];
        seats := InsertAt(seats, Slot(seats, who), SeatHolder(who, stake, 0));
        voters := voters[who := Voter([who], stake, c.votingLockPeriod)];
      }
      assert list[..|list|] == list;
      members, voting := seats, voters;
      GenesisInvariant(c, list, balances);
    }

    /** Exactly those not yet standing are accepted, given funds, a large enough witness and at most
        the limit of candidates. Whoever is accepted has exactly the bond on hold, nobody else's hold
        moves. */
    method SubmitCandidacy(who: Account, claimed: nat, canHold: bool) returns (r: Result<()>)
      requires Valid()
      modifies this
      ensures Valid()
      ensures r.Ok? <==>
        && old(|candidates|) <= claimed && old(|candidates|) <= config.maxCandidates
        && Count(old(Roll(View())), who) == 0 && canHold
      ensures r.Ok? ==> Stands(config, old(View()), View(), who)
      ensures Outcome(r, old(View()), View(), Elections.SubmitCandidacy(config, old(View()), who, claimed, canHold))
    {
      ghost var s := View();
      SubmitAcceptedIff(config, s, who, claimed, canHold);
      if |candidates| > claimed { return Err(InvalidWitnessData); }
      if |candidates| > config.maxCandidates { return Err(TooManyCandidates); }
      if Found(candidates, who) { return Err(DuplicatedCandidate); }
      if Found(members, who) { return Err(MemberSubmit); }
      if Listed(runnersUp, who) { return Err(RunnerUpSubmit); }
      if !canHold { return Err(InsufficientCandidateFunds); }
      held := held[who := At(held, who) + config.candidacyBond];
      candidates := InsertAt(candidates, Slot(candidates, who), SeatHolder(who, 0, config.candidacyBond));
      r := Ok(());
      assert Elections.SubmitCandidacy(config, s, who, claimed, canHold) == Ok(View());
      SubmitKeepsInvariant(config, s, who, claimed, canHold);
    }

    /** What the receiver does on a report. */
    method ChangeMembers(change: Report)
      modifies this`reports, this`prime
      ensures reports == old(reports) + [change] && prime == None
    {
      reports := reports + [change];
      prime := None;
    }

    /** Exactly the members can be removed. The one removed is on no list and has no hold left, and the
        best runner-up, if any, is a member in its place. The prime stays unless it is the one removed. */
    method RemoveAndReplaceMember(who: Account, slash: bool) returns (r: Result<()>)
      requires Valid()
      modifies this
      ensures Valid()
      ensures r.Ok? <==> Listed(old(members), who)
      ensures r.Ok? ==> Gone(old(View()), View(), who)
      ensures r.Ok? ==> prime == if old(prime) == Some(who) then None else old(prime)
      ensures r.Ok? && |old(runnersUp)| > 0 ==>
        Count(members, old(runnersUp)[|old(runnersUp)| - 1].who) == 1 && |members| == |old(members)|
      ensures Outcome(r, old(View()), View(), RemoveAndReplace(old(View()), who, slash))
    {
      ghost var s := View();
      r := ReplaceIfMember(who, slash);
      ReplaceAcceptedIff(config, s, who, slash);
      if r.Ok? {
        ReplaceKeepsInvariant(config, s, who, slash);
        ReplaceTells(s, who, slash);
        if |s.runnersUp| > 0 { NextIsSeated(config, s, who, slash); }
      }
    }

    method ReplaceIfMember(who: Account, slash: bool) returns (r: Result<()>)
      modifies this
      ensures Outcome(r, old(View()), View(), RemoveAndReplace(old(View()), who, slash))
    {
      if !Found(members, who) { return Err(NotMember); }
      var i := Slot(members, who);
      if !slash && At(held, who) < members[i].deposit { return Err(UnableToReleaseBond); }
      Replace(who, i);
      r := Ok(());
    }

    /** The member at `i` leaves with its bond, the best runner-up enters, and the prime stays
        unless it is the one leaving. */
    method Replace(who: Account, i: nat)
      requires i < |members|
      modifies this
      ensures View() == Replaced(old(View()), who, i)
    {
      held := Slash(held, who, members[i].deposit);
      members := RemoveAt(members, i);
      var incoming := Promote();
      var current := prime;
      ChangeMembers(Report(incoming, [who], Ids(members)));
      if current.Some? && current.value != who { prime := current; }
    }

    /** Take the best runner-up, if any, into the members. */
    method Promote() returns (incoming: seq<Account>)
      modifies this`members, this`runnersUp
      ensures (members, runnersUp, incoming) == Promoted(old(members), old(runnersUp))
    {
      incoming := [];
      if |runnersUp| > 0 {
        var next := runnersUp[|runnersUp| - 1];
        runnersUp := runnersUp[..|runnersUp| - 1];
        if !Found(members, next.who) { members := InsertAt(members, Slot(members, next.who), next); }
        incoming := [next.who];
      }
    }

    /** Exactly those who hold a role can renounce it. Whoever does is on no list and has no hold left;
        nobody else's hold moves. */
    method RenounceCandidacy(who: Account, role: Renouncing) returns (r: Result<()>)
      requires Valid()
      modifies this
      ensures Valid()
      ensures r.Ok? <==>
        match role
        case Member => Listed(old(members), who)
        case RunnerUp => Listed(old(runnersUp), who)
        case Candidate(count) => |old(candidates)| <= count && Listed(old(candidates), who)
      ensures r.Ok? ==> Gone(old(View()), View(), who)
      ensures Outcome(r, old(View()), View(), Elections.Renounce(old(View()), who, role))
    {
      ghost var s := View();
      RenounceAcceptedIff(config, s, who, role);
      r := Renounce(who, role);
      if r.Ok? { RenounceKeepsInvariant(config, s, who, role); }
    }

    method Renounce(who: Account, role: Renouncing) returns (r: Result<()>)
      modifies this
      ensures Outcome(r, old(View()), View(), Elections.Renounce(old(View()), who, role))
    {
      match role {
        case Member =>
          r := ReplaceIfMember(who, false);
          if r.Err? { r := Err(InvalidRenouncing); }
        case RunnerUp =>
          var i := Position(runnersUp, who);
          if i == |runnersUp| { return Err(InvalidRenouncing); }
          var deposit := runnersUp[i].deposit;
          if At(held, who) < deposit { return Err(UnableToReleaseBond); }
          runnersUp := RemoveAt(runnersUp, i);
          held := Slash(held, who, deposit);
          r := Ok(());
        case Candidate(count) =>
          if count < |candidates| { return Err(InvalidWitnessData); }
          if !Found(candidates, who) { return Err(InvalidRenouncing); }
          var i := Slot(candidates, who);
          var deposit := candidates[i].deposit;
          if At(held, who) < deposit { return Err(UnableToReleaseBond); }
          candidates := RemoveAt(candidates, i);
          held := Slash(held, who, deposit);
          r := Ok(());
      }
    }

    /** A vote is accepted exactly if it names someone, no more than the limit and than stand, with more
        than the minimum or, while locked up, with no less stake. It is stored as cast, leaves the other
        voters alone, and is locked up for the whole period. While an earlier vote is locked up its stake
        does not fall, unless the voter's whole balance has. */
    method Vote(who: Account, votes: seq<Account>, value: nat, now: nat, total: nat, minimum: nat)
      returns (r: Result<()>)
      requires Valid()
      modifies this`voting
      ensures Valid()
      ensures r.Ok? <==>
        && 0 < |votes| <= config.maxVotesPerVoter && |votes| <= |candidates| + |members| + |runnersUp|
        && (if now < VoterAt(old(View()), who).lockupTill then VoterAt(old(View()), who).stake <= value
            else minimum < value)
      ensures r.Ok? ==> voting - {who} == old(voting) - {who}
      ensures r.Ok? ==> LockedUp(View(), who, Min(value, total), now + config.votingLockPeriod)
      ensures r.Ok? ==> voting[who].votes == votes && voting[who].stake <= total && voting[who].stake <= value
      ensures r.Ok? && now < VoterAt(old(View()), who).lockupTill ==>
        Min(VoterAt(old(View()), who).stake, total) <= voting[who].stake
      ensures Outcome(r, old(View()), View(),
          Elections.Vote(config, old(View()), who, votes, value, now, total, minimum))
    {
      if |votes| > config.maxVotesPerVoter { return Err(MaximumVotesExceeded); }
      if |votes| == 0 { return Err(NoVotes); }
      var allowed := |candidates| + |members| + |runnersUp|;
      if allowed == 0 { return Err(UnableToVote); }
      if |votes| > allowed { return Err(TooManyVotes); }
      var voter := if who in voting then voting[who] else Voter([], 0, 0);
      if now < voter.lockupTill {
        if value < voter.stake { return Err(LowBalance); }
      } else {
        if value <= minimum { return Err(LowBalance); }
      }
      VotingKeepsInvariant(config, View(),
        voting[who := Voter(votes, Min(value, total), now + config.votingLockPeriod)]);
      voting := voting[who := Voter(votes, Min(value, total), now + config.votingLockPeriod)];
      r := Ok(());
    }

    /** Exactly a voter whose lock-up is over can leave, and leaves the other voters alone. */
    method RemoveVoter(who: Account, now: nat) returns (r: Result<()>)
      requires Valid()
      modifies this`voting
      ensures Valid()
      ensures r.Err? <==> who !in old(voting) || LockedUp(old(View()), who, 0, now + 1)
      ensures r.Ok? ==> who !in voting && voting == old(voting) - {who}
      ensures Outcome(r, old(View()), View(), Elections.RemoveVoter(old(View()), who, now))
    {
      if who !in voting { return Err(MustBeVoter); }
      if now < voting[who].lockupTill { return Err(VotingPeriodNotEnded); }
      VotingKeepsInvariant(config, View(), voting - {who});
      voting := voting - {who};
      r := Ok(());
    }

    /** The losers among those who stood are slashed one by one. */
    method SlashAll(roll: seq<SeatHolder>, seats: seq<SeatHolder>)
      modifies this`held
      ensures held == SlashLosers(old(held), roll, seats)
    {
      for i := 0 to |roll|
        invariant held == SlashLosers(old(held), roll[..i], seats)
      {
        assert roll[..i + 1][..i] == roll[..i];
        if !Listed(seats, roll[i].who) { held := Slash(held, roll[i].who, roll[i].deposit); }
      }
      assert roll[..|roll|] == roll;
    }

    /** Read all voters, or give up when there are too many. */
    method CollectVoters(order: seq<Account>) returns (voters: Option<seq<Voter>>)
      requires Visits(order, voting) && forall i :: 0 <= i < |order| ==> order[i] in voting
      ensures voters.None? <==> |voting| > config.maxVoters
      ensures voters.Some? ==> voters.value == Collect(voting, order)
    {
      VisitsAll(order, voting);
      var found: seq<Voter> := [];
      for i := 0 to |order|
        invariant found == Collect(voting, order[..i]) && |found| == i <= config.maxVoters
      {
        if |found| >= config.maxVoters { return None; }
        assert order[..i + 1][..i] == order[..i];
        found := found + [voting[order[i]]];
      }
      assert order[..|order|] == order;
      voters := Some(found);
    }

    /** The election. `order` is the order in which storage yields the voters, `outcome` the answer of the
        election method. It takes effect exactly if someone stands, there are not too many voters and
        there is an answer; otherwise nothing changes. */
    method DoPhragmen(order: seq<Account>, outcome: Option<seq<Winner>>)
      requires Valid() && Visits(order, voting)
      requires outcome.Some? ==> IsOutcome(Roll(View()), outcome.value, config.desiredMembers + config.desiredRunnersUp)
      modifies this
      ensures Valid()
      ensures CanElect(config, old(View())) && outcome.Some? ==> Elected(config, old(View()), View(), outcome.value)
      ensures !CanElect(config, old(View())) || outcome.None? ==> View() == old(View())
      ensures View() == Phragmen(config, old(View()), outcome)
    {
      ghost var s := View();
      if outcome.Some? { InstalledSorted(config, s, outcome.value); }
      HoldElection(order, outcome);
      PhragmenKeepsInvariant(config, s, outcome);
      ElectionTakesEffectIff(config, s, outcome);
    }

    method HoldElection(order: seq<Account>, outcome: Option<seq<Winner>>)
      requires BallotsOk(config, voting) && Visits(order, voting)
      requires outcome.Some? ==> Sorted(Install(config, View(), outcome.value).members)
      modifies this
      ensures View() == Phragmen(config, old(View()), outcome)
    {
      if |candidates + (members + runnersUp)| == 0 { return; }
      VisitsEach(order, voting);
      var voters := CollectVoters(order);
      if voters.None? || outcome.None? { return; }
      SeatWinners(order, voters.value, outcome.value);
    }

    /** The prime of the new members, by the ballots collected. */
    method ElectPrime(newMembers: seq<SeatHolder>, ghost order: seq<Account>,
                      voters: seq<Voter>)
      returns (best: Option<Account>)
      requires Sorted(newMembers) && BallotsOk(config, voting) && Visits(order, voting)
      requires forall i :: 0 <= i < |order| ==> order[i] in voting
      requires voters == Collect(voting, order)
      ensures best == Prime(config, voting, newMembers)
    {
      CollectedFit(config, voting, order);
      var scores := PrimeVotes(config, newMembers, voters);
      CountedPrime(config, voting, order, newMembers, scores);
      best := if |newMembers| == 0 then None else Some(newMembers[LastMax(scores, |newMembers|)].who);
    }

    method SeatWinners(ghost order: seq<Account>, voters: seq<Voter>, winners: seq<Winner>)
      requires BallotsOk(config, voting) && Visits(order, voting)
      requires forall i :: 0 <= i < |order| ==> order[i] in voting
      requires voters == Collect(voting, order)
      requires Sorted(Install(config, View(), winners).members)
      modifies this
      ensures View() == Install(config, old(View()), winners)
    {
      var roll := candidates + (members + runnersUp);
      var seats := Seats(roll, winners);
      var n := Min(config.desiredMembers, |seats|);
      var newMembers, newRunnersUp := SortById(seats[..n]), Reversed(seats[n..]);
      var best := ElectPrime(newMembers, order, voters);
      StartTerm(newMembers, newRunnersUp, best);
    }

    method SwapSeats(newMembers: seq<SeatHolder>, newRunnersUp: seq<SeatHolder>, change: Report, best: Option<Account>)
      modifies this`members, this`runnersUp, this`candidates, this`rounds, this`reports, this`prime
      ensures members == newMembers && runnersUp == newRunnersUp && candidates == [] && prime == best
      ensures rounds == old(rounds) + 1 && reports == old(reports) + [change]
    {
      ChangeMembers(change);
      members, runnersUp, candidates, rounds := newMembers, newRunnersUp, [], rounds + 1;
      prime := best;
    }

    method StartTerm(newMembers: seq<SeatHolder>, newRunnersUp: seq<SeatHolder>, best: Option<Account>)
      modifies this
      ensures View() == NewTerm(old(View()), newMembers, newRunnersUp, best)
    {
      var roll := candidates + (members + runnersUp);
      SwapSeats(newMembers, newRunnersUp, Change(Ids(members), Ids(newMembers)), best);
      SlashAll(roll, newMembers + newRunnersUp);
    }

    /** Remove a member, and hold an election at once if asked to, which then takes effect if it can. */
    method RemoveMember(who: Account, slash: bool, rerun: bool, order: seq<Account>,
                        outcome: Option<seq<Winner>>)
      returns (r: Result<()>)
      requires Valid() && Visits(order, voting)
      requires outcome.Some? && RemoveAndReplace(View(), who, slash).Ok? ==>
        IsOutcome(Roll(RemoveAndReplace(View(), who, slash).value), outcome.value,
                  config.desiredMembers + config.desiredRunnersUp)
      modifies this
      ensures Valid()
      ensures r.Ok? <==> Listed(old(members), who)
      ensures r.Ok? && !rerun ==> Gone(old(View()), View(), who) && rounds == old(rounds)
      ensures r.Ok? && rerun ==>
        && RemoveAndReplace(old(View()), who, slash).Ok?
        && var removed := RemoveAndReplace(old(View()), who, slash).value;
        && Gone(old(View()), removed, who)
        && (if CanElect(config, removed) && outcome.Some? then Elected(config, removed, View(), outcome.value)
            else View() == removed)
      ensures Outcome(r, old(View()), View(), Elections.RemoveMember(config, old(View()), who, slash, rerun, outcome))
    {
      r := RemoveAndReplaceMember(who, slash);
      if r.Ok? && rerun { DoPhragmen(order, outcome); }
    }
  }

  lemma {:induction false} SeedPrefix(c: Config, list: seq<(Account, nat)>, balances: map<Account, nat>)
    requires Seed(c, list, balances).Some?
    ensures forall i :: 0 <= i <= |list| ==> Seed(c, list[..i], balances).Some?
  {
    if |list| == 0 {
    } else {
      var init := list[..|list| - 1];
      SeedPrefix(c, init, balances);
      forall i | 0 <= i <= |list| ensures Seed(c, list[..i], balances).Some? {
        if i == |list| {
          assert list[..i] == list;
        } else {
          assert list[..i] == init[..i];
        }
      }
    }
  }

  lemma {:induction false} SeedAt(c: Config, list: seq<(Account, nat)>, balances: map<Account, nat>, i: nat)
    requires Seed(c, list, balances).Some? && i <= |list|
    ensures Seed(c, list[..i], balances).Some?
  {
    SeedPrefix(c, list, balances);
  }
}
