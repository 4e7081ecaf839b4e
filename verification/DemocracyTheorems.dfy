/** The promises of the democracy pallet: capital counted once, referenda finishing on time, locks that last. */
module DemocracyTheorems {
  import opened Totals
  import opened DemocracyTypes
  import opened DemocracyVoting
  import opened DemocracyVotingInvariant
  import opened VoteThreshold
  import opened Democracy
  import opened DemocracyRuns

  // -------------------------------------------------- no capital counts twice

  lemma {:induction false} LockedWithinFrozen(b: Book)
    requires FreezesCover(b)
    ensures Sum(b.voting, Locked) <= Total(b.frozen)
  {
    TotalMonotone(Weights(b.voting, Locked), b.frozen);
  }

  lemma {:induction false} TallyBounded(b: Book, count: nat, r: RefIndex)
    requires BookInv(b, count) && IsOngoing(b.refs, r)
    ensures b.refs[r].status.tally == TallyOf(b.voting, r)
    ensures b.refs[r].status.tally.turnout <= Total(b.frozen)
    ensures b.refs[r].status.tally.ayes + b.refs[r].status.tally.nays <= 6 * b.refs[r].status.tally.turnout
  {
    TurnoutBounded(b.voting, r, count);
    VotesBounded(b.voting, r);
    LockedWithinFrozen(b);
  }

  /** In every reachable state the tally of an ongoing referendum is the one recomputed from all
      votes and delegations, its turnout is at most all frozen capital, and its votes are at most six
      per unit of turnout, whoever delegates to whom. */
  lemma {:induction false} NoCapitalCountsTwice(c: Settings, calls: seq<Call>, r: RefIndex)
    requires SettingsOk(c) && RunInRange(c, GENESIS, calls)
    requires IsOngoing(Exec(c, GENESIS, calls).book.refs, r)
    ensures var b := Exec(c, GENESIS, calls).book;
            var t := b.refs[r].status.tally;
            t == TallyOf(b.voting, r) && t.turnout <= Total(b.frozen) && t.ayes + t.nays <= 6 * t.turnout
  {
    ReachableInvariant(c, calls);
    TallyBounded(Exec(c, GENESIS, calls).book, Exec(c, GENESIS, calls).count, r);
  }

  // ------------------------------------------------------------- round trips

  /** Recalling a delegation never clamps: the target's cached delegations and every tally they
      went into are at least the amount taken out. */
  lemma {:induction false} ReduceNeverClamps(b: Book, count: nat, who: Account, r: RefIndex)
    requires BookInv(b, count) && VotingAt(b.voting, who).Delegating?
    ensures var v := VotingAt(b.voting, who);
            var amount, t := v.conviction.Votes(v.balance), VotingAt(b.voting, v.target);
            && amount.votes <= t.delegations.votes && amount.capital <= t.delegations.capital
            && (IsOngoing(b.refs, r) && VotesOn(t, r) && t.votes[r].Standard? ==>
                  var tally := b.refs[r].status.tally;
                  var side := if t.votes[r].vote.aye then tally.ayes else tally.nays;
                  amount.capital <= tally.turnout && amount.votes <= side)
  {
    var v := VotingAt(b.voting, who);
    assert RecordOk(who, v, count);
    var w := Direct(map[], v.delegations, NO_LOCK);
    RecalledTarget(b.voting, who, w);
    RecalledTally(b.voting, who, w, r);
  }

  lemma {:induction false} OngoingRemoval(c: Config, b: Book, now: nat, who: Account, r: RefIndex, t: Tally)
    requires IsOngoing(b.refs, r) && VotesOn(VotingAt(b.voting, who), r)
    requires Cleared(b.refs[r].status.tally, VotingAt(b.voting, who), r) == Some(t)
    ensures var v := VotingAt(b.voting, who);
            TryRemoveVote(c, b, now, who, r, true)
            == Ok(b.(voting := b.voting[who := v.(votes := v.votes - {r})],
                     refs := b.refs[r := WithTally(b.refs[r], t)]))
  {
  }

  lemma {:induction false} VotedThenCleared(b: Book, b': Book, who: Account, r: RefIndex, vote: AccountVote)
    requires TalliesExact(b) && TalliesExact(b') && IsOngoing(b.refs, r) && IsOngoing(b'.refs, r)
    requires VotingAt(b.voting, who).Direct? && r !in VotingAt(b.voting, who).votes
    requires b'.voting == Voted(b.voting, who, r, vote)
    ensures Cleared(b'.refs[r].status.tally, VotingAt(b'.voting, who), r) == Some(b.refs[r].status.tally)
  {
    var v := VotingAt(b.voting, who);
    RecordRestored(b.voting, who, r, vote);
    RemovalTally(b', who, r, v, r);
    OtherTalliesUnseen(b.voting, who, v, r);
  }

  /** Voting and then removing the vote restores every tally and the voter's record. */
  lemma {:induction false} VoteThenRemoveRestores(c: Config, b: Book, now: nat, who: Account, r: RefIndex,
                                                  vote: AccountVote, totalBalance: nat, count: nat)
    requires BookInv(b, count) && IsOngoing(b.refs, r)
    requires vote.Balance() <= totalBalance && VotingAt(b.voting, who).Direct?
    requires r !in VotingAt(b.voting, who).votes && |VotingAt(b.voting, who).votes| < c.maxVotes
    requires Funded(Voted(b.voting, who, r, vote))
    ensures var voted := TryVote(c, b, who, r, vote, totalBalance);
            && voted.Ok?
            && TryRemoveVote(c, voted.value, now, who, r, true)
               == Ok(voted.value.(voting := b.voting[who := VotingAt(b.voting, who)], refs := b.refs))
  {
    VoteAccepted(c, b, who, r, vote, totalBalance, count);
    VoteKeepsInvariant(c, b, who, r, vote, totalBalance, count);
    var n := Voted(b.voting, who, r, vote);
    var b' := Book(n, b.refs[r := WithTally(b.refs[r], TallyOf(n, r))], ExtendFreeze(b.frozen, who, vote.Balance()));
    VotedThenCleared(b, b', who, r, vote);
    OngoingRemoval(c, b', now, who, r, b.refs[r].status.tally);
    RecordRestored(b.voting, who, r, vote);
    RefsRestored(b.refs, r, TallyOf(n, r));
  }

  lemma {:induction false} RecordRestored(m: map<Account, Voting>, who: Account, r: RefIndex, vote: AccountVote)
    requires VotingAt(m, who).Direct? && r !in VotingAt(m, who).votes
    ensures var n := Voted(m, who, r, vote);
            n[who := n[who].(votes := n[who].votes - {r})] == m[who := VotingAt(m, who)]
  {
    var n := Voted(m, who, r, vote);
    assert n[who].votes - {r} == VotingAt(m, who).votes;
  }

  lemma {:induction false} RefsRestored(refs: map<RefIndex, ReferendumInfo>, r: RefIndex, t: Tally)
    requires IsOngoing(refs, r)
    ensures var refs' := refs[r := WithTally(refs[r], t)];
            refs'[r := WithTally(refs'[r], refs[r].status.tally)] == refs
  {
  }

  lemma {:induction false} RestoredInfo(info: ReferendumInfo, t: Tally)
    requires info.Ongoing?
    ensures WithTally(WithTally(info, t), info.status.tally) == info
  {
  }

  /** Adding delegations to the tallies of an account's referenda and taking them out again changes
      nothing, as long as nothing saturates. */
  lemma {:induction false} TalliesRestored(refs: map<RefIndex, ReferendumInfo>, votes: map<RefIndex, AccountVote>,
                                           amount: Delegations)
    requires forall r :: IsOngoing(refs, r) && r in votes && votes[r].Standard? ==>
               refs[r].status.tally.Plus(SideOf(votes[r], amount)).Representable()
    ensures ReduceTallies(IncreaseTallies(refs, votes, amount), votes, amount) == refs
  {
    var up := IncreaseTallies(refs, votes, amount);
    var down := ReduceTallies(up, votes, amount);
    forall r | r in refs ensures down[r] == refs[r] {
      if IsOngoing(refs, r) && r in votes && votes[r].Standard? {
        var t := refs[r].status.tally;
        IncreaseAddsSide(t, votes[r], amount);
        ReduceTakesSide(t, votes[r], amount);
        RestoredInfo(refs[r], t.Increase(votes[r].vote.aye, amount));
      }
    }
  }

  lemma {:induction false} EntrustedSidesFit(b: Book, who: Account, w: Voting, count: nat, r: RefIndex)
    requires BookInv(b, count) && Starts(b.voting, who, w) && Funded(Entrust(b, who, w).voting) && IsOngoing(b.refs, r)
    ensures var side := Sided(VotingAt(b.voting, w.target), r, w.conviction.Votes(w.balance));
            b.refs[r].status.tally.Plus(side).Representable()
  {
    var n := Entrusted(b.voting, who, w.target, w, w.conviction.Votes(w.balance));
    assert Entrust(b, who, w).voting == n;
    EntrustedTally(b.voting, who, w, r);
    EntrustedDelegations(b.voting, who, w);
    EntrustedRecords(b.voting, who, w, count);
    TallyRepresentable(n, r, count);
  }

  lemma {:induction false} RecallRestoresTallies(b: Book, who: Account, w: Voting, count: nat)
    requires BookInv(b, count) && Starts(b.voting, who, w) && Funded(Entrust(b, who, w).voting)
    ensures ReduceUpstream(Entrust(b, who, w), w.target, w.conviction.Votes(w.balance)).refs == b.refs
  {
    var t, amount := VotingAt(b.voting, w.target), w.conviction.Votes(w.balance);
    if t.Direct? {
      forall r | IsOngoing(b.refs, r) && r in t.votes && t.votes[r].Standard?
        ensures b.refs[r].status.tally.Plus(SideOf(t.votes[r], amount)).Representable()
      {
        EntrustedSidesFit(b, who, w, count, r);
      }
      TalliesRestored(b.refs, t.votes, amount);
    }
  }

  lemma {:induction false} EntrustVoting(b: Book, who: Account, w: Voting)
    requires DelegationsExact(b.voting) && Starts(b.voting, who, w) && Funded(Entrust(b, who, w).voting)
    ensures var t := VotingAt(b.voting, w.target);
            Entrust(b, who, w).voting
            == b.voting[w.target := t.SetCommon(PlusD(t.delegations, w.conviction.Votes(w.balance)), t.prior)][who := w]
  {
    EntrustedTarget(b.voting, who, w);
  }

  lemma {:induction false} RecallRestoresRecords(b: Book, who: Account, w: Voting)
    requires DelegationsExact(b.voting) && Starts(b.voting, who, w) && Funded(Entrust(b, who, w).voting)
    ensures ReduceUpstream(Entrust(b, who, w), w.target, w.conviction.Votes(w.balance)).voting
         == b.voting[w.target := VotingAt(b.voting, w.target)][who := w]
  {
    var t, amount := VotingAt(b.voting, w.target), w.conviction.Votes(w.balance);
    var t' := t.SetCommon(PlusD(t.delegations, amount), t.prior);
    EntrustVoting(b, who, w);
    ReceivedRestored(t, amount, t');
    MapRestored(b.voting, w.target, t', who, w, t);
  }

  lemma {:induction false} MapRestored(m: map<Account, Voting>, a: Account, v: Voting, d: Account, w: Voting,
                                       v': Voting)
    requires a != d
    ensures VotingAt(m[a := v][d := w], a) == v
    ensures m[a := v][d := w][a := v'] == m[a := v'][d := w]
  {
  }

  /** Delegating and then undelegating restores every tally, and every record except for the lock
      that the delegation leaves behind on the delegator. */
  lemma {:induction false} DelegateThenUndelegateRestores(c: Config, b: Book, now: nat, later: nat, who: Account,
                                                          target: Account, conviction: Conviction, balance: nat,
                                                          totalBalance: nat, count: nat)
    requires BookInv(b, count) && who != target && balance <= totalBalance
    requires VotingAt(b.voting, who).Direct? && VotingAt(b.voting, who).votes == map[]
    requires Funded(TryDelegate(c, b, now, who, target, conviction, balance, totalBalance).value.voting)
    ensures var b' := TryDelegate(c, b, now, who, target, conviction, balance, totalBalance).value;
            var b'' := TryUndelegate(c, b', later, who);
            var v := VotingAt(b.voting, who);
            var prior := v.prior.Accumulate(UnlockBlock(c, later, conviction.LockPeriods()), balance);
            && b''.Ok? && b''.value.refs == b.refs
            && b''.value.voting
               == b.voting[target := VotingAt(b.voting, target)][who := Direct(map[], v.delegations, prior)]
  {
    var v := VotingAt(b.voting, who);
    var w := Delegating(balance, target, conviction, v.delegations, v.prior);
    assert TryDelegate(c, b, now, who, target, conviction, balance, totalBalance).value == Entrust(b, who, w);
    RecallRestoresTallies(b, who, w, count);
    RecallRestoresRecords(b, who, w);
  }

  lemma {:induction false} ReceivedRestored(t: Voting, amount: Delegations, t': Voting)
    requires t' == t.SetCommon(PlusD(t.delegations, amount), t.prior)
    ensures t'.SetCommon(t'.delegations.SaturatingSub(amount), t'.prior) == t
  {
  }

  // ------------------------------------------ referenda finish exactly on time

  /** How a referendum that was ongoing in `refs` may look in a later state `s`, unless cancelled. */
  ghost predicate OnSchedule(end: nat, s: State, r: RefIndex) {
    r in s.book.refs ==>
      match s.book.refs[r]
      case Ongoing(status) => status.end == end && s.now < end
      case Finished(_, finishedAt) => finishedAt == end <= s.now
  }

  lemma {:induction false} StepKeepsSchedule(c: Settings, s: State, call: Call, r: RefIndex, end: nat)
    requires SettingsOk(c) && Inv(s) && s.now < MAX_BLOCK && InRange(Step(c, s, call)) && r < s.count
    requires OnSchedule(end, s, r)
    ensures OnSchedule(end, Step(c, s, call), r)
    ensures r < Step(c, s, call).count
  {
    if call.NextBlock? {
      NextBlockKeepsNow(c, s, call.electorate);
      NextBlockKeepsSchedule(c, s, call.electorate, r, end);
    } else if IsBookCall(call) {
      BookCallKeepsStages(c, s, call);
    } else {
      QueueCallsOnlyAddOrCancel(c, s, call, r);
    }
  }

  lemma {:induction false} NextBlockKeepsSchedule(c: Settings, s: State, electorate: Electorate, r: RefIndex, end: nat)
    requires SettingsOk(c) && Inv(s) && s.now + 1 < MAX_BLOCK && r < s.count
    requires OnSchedule(end, s, r)
    ensures OnSchedule(end, Step(c, s, NextBlock(electorate)), r) && r < Step(c, s, NextBlock(electorate)).count
  {
    BlockOpens(s);
    ScheduleOpens(s, r, end);
    BlockKeepsSchedule(c, s.(now := s.now + 1), electorate, r, end);
    NextBlockIsBeginBlock(c, s, electorate);
  }

  /** What `OnSchedule` says as the next block opens. */
  ghost predicate Due(end: nat, o: State, r: RefIndex) {
    r in o.book.refs ==>
      match o.book.refs[r]
      case Ongoing(status) => status.end == end
      case Finished(_, finishedAt) => finishedAt == end < o.now
  }

  lemma {:induction false} ScheduleOpens(s: State, r: RefIndex, end: nat)
    requires OnSchedule(end, s, r)
    ensures Due(end, s.(now := s.now + 1), r)
  {
  }

  lemma {:induction false} QueueCallsOnlyAddOrCancel(c: Settings, s: State, call: Call, r: RefIndex)
    requires SettingsOk(c) && Inv(s) && !IsBookCall(call) && !call.NextBlock? && r < s.count
    ensures var s' := Step(c, s, call);
            && s'.now == s.now && s.count <= s'.count
            && (r in s'.book.refs ==> r in s.book.refs && s'.book.refs[r] == s.book.refs[r])
  {
  }

  lemma {:induction false} BlockKeepsSchedule(c: Settings, o: State, electorate: Electorate, r: RefIndex, end: nat)
    requires SettingsOk(c) && Opening(o) && o.now < MAX_BLOCK && r < o.count
    requires Due(end, o, r)
    ensures OnSchedule(end, BeginBlock(c, o, electorate), r)
    ensures o.count <= BeginBlock(c, o, electorate).count
  {
    BeginBlockExact(c, o, electorate);
    var s' := BeginBlock(c, o, electorate);
    if r in o.book.refs {
      if o.book.refs[r].Ongoing? && !Matures(o.book.refs, r, o.now) {
        assert IsOngoing(s'.book.refs, r);
      }
    } else {
      BlockAddsOnlyAtCount(c, o, electorate, r);
    }
  }

  lemma {:induction false} BlockAddsOnlyAtCount(c: Settings, o: State, electorate: Electorate, r: RefIndex)
    requires SettingsOk(c) && Opening(o) && o.now < MAX_BLOCK && r < o.count && r !in o.book.refs
    ensures r !in BeginBlock(c, o, electorate).book.refs
  {
    if o.now % c.launchPeriod == 0 { LaunchNextLaunches(c, o); }
  }

  ghost predicate IsFinished(b: Book, r: RefIndex) {
    r in b.refs && b.refs[r].Finished?
  }

  /** The only calls that remove a referendum. */
  predicate Cancels(call: Call, r: RefIndex) {
    call == CallCancelReferendum(r) || (call.CallBlacklist? && call.maybeRef == Some(r))
  }

  lemma {:induction false} StepKeepsReferendum(c: Settings, s: State, call: Call, r: RefIndex)
    requires SettingsOk(c) && Inv(s) && s.now < MAX_BLOCK && InRange(Step(c, s, call))
    requires r in s.book.refs && !Cancels(call, r)
    ensures r in Step(c, s, call).book.refs
  {
    if call.NextBlock? {
      NextBlockKeepsNow(c, s, call.electorate);
      NextBlockKeepsReferendum(c, s, call.electorate, r);
    } else if IsBookCall(call) {
      BookCallKeepsStages(c, s, call);
    }
  }

  lemma {:induction false} NextBlockKeepsReferendum(c: Settings, s: State, electorate: Electorate, r: RefIndex)
    requires SettingsOk(c) && Inv(s) && s.now + 1 < MAX_BLOCK && r in s.book.refs
    ensures r in Step(c, s, NextBlock(electorate)).book.refs
  {
    var o := s.(now := s.now + 1);
    BlockOpens(s);
    assert r in BeginBlock(c, o, electorate).book.refs by { BeginBlockExact(c, o, electorate); }
    NextBlockIsBeginBlock(c, s, electorate);
  }

  lemma {:induction false} RunKeepsSchedule(c: Settings, s: State, calls: seq<Call>, r: RefIndex)
    requires SettingsOk(c) && Inv(s) && RunInRange(c, s, calls)
    requires IsOngoing(s.book.refs, r)
    ensures OnSchedule(s.book.refs[r].status.end, Exec(c, s, calls), r)
    ensures r < Exec(c, s, calls).count
    decreases |calls|
  {
    if |calls| == 0 {
    } else {
      var init := calls[..|calls| - 1];
      RunKeepsSchedule(c, s, init, r);
      RunKeepsInvariant(c, s, init);
      StepKeepsSchedule(c, Exec(c, s, init), calls[|calls| - 1], r, s.book.refs[r].status.end);
    }
  }

  /** Only cancelling a referendum removes it. */
  lemma {:induction false} OnlyCancellationRemoves(c: Settings, s: State, calls: seq<Call>, r: RefIndex)
    requires SettingsOk(c) && Inv(s) && RunInRange(c, s, calls)
    requires r in s.book.refs && forall i :: 0 <= i < |calls| ==> !Cancels(calls[i], r)
    ensures r in Exec(c, s, calls).book.refs
    decreases |calls|
  {
    if |calls| == 0 {
    } else {
      var init := calls[..|calls| - 1];
      OnlyCancellationRemoves(c, s, init, r);
      RunKeepsInvariant(c, s, init);
      StepKeepsReferendum(c, Exec(c, s, init), calls[|calls| - 1], r);
    }
  }

  /** Along any run, an ongoing referendum that no call cancels is ongoing with the same end before
      that end, and finished at exactly that end from then on. One that is cancelled finishes at its
      end or not at all. */
  lemma {:induction false} ReferendaFinishOnTime(c: Settings, s: State, calls: seq<Call>, r: RefIndex)
    requires SettingsOk(c) && Inv(s) && RunInRange(c, s, calls)
    requires IsOngoing(s.book.refs, r)
    ensures var end, s' := s.book.refs[r].status.end, Exec(c, s, calls);
            && OnSchedule(end, s', r)
            && (r !in s'.book.refs ==> exists i :: 0 <= i < |calls| && Cancels(calls[i], r))
            && ((forall i :: 0 <= i < |calls| ==> !Cancels(calls[i], r)) ==>
                  if s'.now < end then IsOngoing(s'.book.refs, r) && s'.book.refs[r].status.end == end
                  else IsFinished(s'.book, r) && s'.book.refs[r].finishedAt == end)
  {
    RunKeepsSchedule(c, s, calls, r);
    if forall i :: 0 <= i < |calls| ==> !Cancels(calls[i], r) {
      OnlyCancellationRemoves(c, s, calls, r);
    }
  }

  // ---------------------------------------------------------- locks that last

  /** The vote of `a` on the finished referendum `r` was on the winning side, and locks at least
      `amount` until at least block `until`. */
  ghost predicate WonWith(c: Config, b: Book, a: Account, r: RefIndex, amount: nat, until: nat) {
    var v := VotingAt(b.voting, a);
    && VotesOn(v, r) && r in b.refs && b.refs[r].Finished?
    && v.votes[r].LockedIf(b.refs[r].approved).Some?
    && var (periods, balance) := v.votes[r].LockedIf(b.refs[r].approved).value;
       amount <= balance && until <= UnlockBlock(c, b.refs[r].finishedAt, periods)
  }

  ghost predicate PriorCovers(b: Book, a: Account, amount: nat, until: nat) {
    var p := VotingAt(b.voting, a).prior;
    amount <= p.amount && until <= p.until
  }

  /** `amount` of `a` is committed until block `until`, by a remembered lock or by a winning vote. */
  ghost predicate Secured(c: Settings, s: State, a: Account, r: RefIndex, amount: nat, until: nat) {
    s.now < until ==> PriorCovers(s.book, a, amount, until) || WonWith(c.voting, s.book, a, r, amount, until)
  }

  /** Whatever is secured is frozen. */
  lemma {:induction false} SecuredIsFrozen(c: Settings, s: State, a: Account, r: RefIndex, amount: nat, until: nat)
    requires Inv(s) && Secured(c, s, a, r, amount, until) && s.now < until
    ensures amount <= At(s.book.frozen, a)
  {
    var v := VotingAt(s.book.voting, a);
    assert v.LockedBalance() <= At(s.book.frozen, a);
    if VotesOn(v, r) { assert v.Balances()[r] == v.votes[r].Balance(); }
  }

  /** From `b` to `b'` the prior lock of `a` does not shrink, and its vote on `r`, if finished, stays. */
  ghost predicate Commits(b: Book, b': Book, a: Account, r: RefIndex) {
    var v, w := VotingAt(b.voting, a), VotingAt(b'.voting, a);
    && v.prior.amount <= w.prior.amount && v.prior.until <= w.prior.until
    && (IsFinished(b, r) && VotesOn(v, r) ==>
          VotesOn(w, r) && w.votes[r] == v.votes[r] && r in b'.refs && b'.refs[r] == b.refs[r])
  }

  lemma {:induction false} CommitsKeepSecured(c: Settings, s: State, s': State, a: Account, r: RefIndex, amount: nat,
                                              until: nat)
    requires Secured(c, s, a, r, amount, until) && s.now <= s'.now && Commits(s.book, s'.book, a, r)
    ensures Secured(c, s', a, r, amount, until)
  {
  }

  lemma {:induction false} VoteCommits(c: Config, b: Book, who: Account, x: RefIndex, vote: AccountVote, total: nat,
                                       a: Account, r: RefIndex)
    requires TryVote(c, b, who, x, vote, total).Ok?
    ensures Commits(b, TryVote(c, b, who, x, vote, total).value, a, r)
  {
  }

  lemma {:induction false} UpstreamCommits(b: Book, target: Account, amount: Delegations, a: Account, r: RefIndex)
    ensures Commits(b, IncreaseUpstream(b, target, amount), a, r)
    ensures Commits(b, ReduceUpstream(b, target, amount), a, r)
  {
  }

  lemma {:induction false} CommitsTransitive(b: Book, b': Book, b'': Book, a: Account, r: RefIndex)
    requires Commits(b, b', a, r) && Commits(b', b'', a, r)
    ensures Commits(b, b'', a, r)
  {
  }

  lemma {:induction false} DelegateCommits(c: Config, b: Book, now: nat, who: Account, target: Account,
                                           conviction: Conviction,
                                           balance: nat, total: nat, a: Account, r: RefIndex)
    requires TryDelegate(c, b, now, who, target, conviction, balance, total).Ok?
    requires VotingAt(b.voting, who).Delegating? ==> VotingAt(b.voting, who).target != who
    ensures Commits(b, TryDelegate(c, b, now, who, target, conviction, balance, total).value, a, r)
  {
    var v := VotingAt(b.voting, who);
    var freed := if v.Delegating? then ReduceUpstream(b, v.target, v.conviction.Votes(v.balance)) else b;
    if v.Delegating? { UpstreamCommits(b, v.target, v.conviction.Votes(v.balance), a, r); }
    UpstreamCommits(freed, target, conviction.Votes(balance), a, r);
    CommitsTransitive(b, freed, IncreaseUpstream(freed, target, conviction.Votes(balance)), a, r);
  }

  lemma {:induction false} UndelegateCommits(c: Config, b: Book, now: nat, who: Account, a: Account, r: RefIndex)
    requires TryUndelegate(c, b, now, who).Ok? && VotingAt(b.voting, who).target != who
    ensures Commits(b, TryUndelegate(c, b, now, who).value, a, r)
  {
  }

  /** Removing the winning vote itself hands its lock over to the prior lock. */
  lemma {:induction false} RemoveVoteKeepsSecured(c: Settings, s: State, voter: Account, x: RefIndex, ownScope: bool,
                                                  a: Account, r: RefIndex, amount: nat, until: nat)
    requires TryRemoveVote(c.voting, s.book, s.now, voter, x, ownScope).Ok? && Secured(c, s, a, r, amount, until)
    ensures var b' := TryRemoveVote(c.voting, s.book, s.now, voter, x, ownScope).value;
            Secured(c, s.(book := b'), a, r, amount, until)
  {
    var b' := TryRemoveVote(c.voting, s.book, s.now, voter, x, ownScope).value;
    if a != voter || x != r || !IsFinished(s.book, r) {
      assert Commits(s.book, b', a, r);
    } else if s.now < until {
      assert PriorCovers(b', a, amount, until);
    }
  }

  lemma {:induction false} UnlockKeepsSecured(c: Settings, s: State, voter: Account, a: Account, r: RefIndex,
                                              amount: nat, until: nat)
    requires Secured(c, s, a, r, amount, until)
    ensures Secured(c, s.(book := UpdateLock(s.book, s.now, voter)), a, r, amount, until)
  {
  }

  lemma {:induction false} BookCallKeepsSecured(c: Settings, s: State, call: Call, a: Account, r: RefIndex,
                                                amount: nat, until: nat)
    requires SettingsOk(c) && Inv(s) && IsBookCall(call) && Secured(c, s, a, r, amount, until)
    ensures Secured(c, Step(c, s, call), a, r, amount, until)
  {
    var b, s' := s.book, Step(c, s, call);
    match call
    case CallVote(who, x, vote, total) =>
      if TryVote(c.voting, b, who, x, vote, total).Ok? {
        VoteCommits(c.voting, b, who, x, vote, total, a, r);
        CommitsKeepSecured(c, s, s', a, r, amount, until);
      }
    case CallRemoveVote(signer, voter, x) =>
      if TryRemoveVote(c.voting, b, s.now, voter, x, signer == voter).Ok? {
        RemoveVoteKeepsSecured(c, s, voter, x, signer == voter, a, r, amount, until);
      }
    case CallDelegate(who, to, conviction, balance, total) =>
      assert RecordOk(who, VotingAt(b.voting, who), s.count);
      if TryDelegate(c.voting, b, s.now, who, to, conviction, balance, total).Ok? {
        DelegateCommits(c.voting, b, s.now, who, to, conviction, balance, total, a, r);
        CommitsKeepSecured(c, s, s', a, r, amount, until);
      }
    case CallUndelegate(who) =>
      assert RecordOk(who, VotingAt(b.voting, who), s.count);
      if TryUndelegate(c.voting, b, s.now, who).Ok? {
        UndelegateCommits(c.voting, b, s.now, who, a, r);
        CommitsKeepSecured(c, s, s', a, r, amount, until);
      }
    case CallUnlock(voter) => UnlockKeepsSecured(c, s, voter, a, r, amount, until);
  }

  lemma {:induction false} OtherStepsCommit(c: Settings, s: State, call: Call, a: Account, r: RefIndex)
    requires SettingsOk(c) && Inv(s) && s.now < MAX_BLOCK && InRange(Step(c, s, call))
    requires !IsBookCall(call) && call != CallCancelReferendum(r)
    ensures s.now <= Step(c, s, call).now && Commits(s.book, Step(c, s, call).book, a, r)
  {
    if call.NextBlock? {
      NextBlockKeepsNow(c, s, call.electorate);
      NextBlockCommits(c, s, call.electorate, a, r);
    } else {
      QueueStepsKeepBook(c, s, call, r);
    }
  }

  lemma {:induction false} QueueStepsKeepBook(c: Settings, s: State, call: Call, r: RefIndex)
    requires SettingsOk(c) && Inv(s) && !IsBookCall(call) && !call.NextBlock? && call != CallCancelReferendum(r)
    ensures var s' := Step(c, s, call);
            && s'.now == s.now && s'.book.voting == s.book.voting
            && (IsFinished(s.book, r) ==> r in s'.book.refs && s'.book.refs[r] == s.book.refs[r])
  {
  }

  lemma {:induction false} NextBlockCommits(c: Settings, s: State, electorate: Electorate, a: Account, r: RefIndex)
    requires SettingsOk(c) && Inv(s) && s.now + 1 < MAX_BLOCK
    ensures s.now <= Step(c, s, NextBlock(electorate)).now
    ensures Commits(s.book, Step(c, s, NextBlock(electorate)).book, a, r)
  {
    var o := s.(now := s.now + 1);
    var s' := BeginBlock(c, o, electorate);
    assert s'.book.voting == s.book.voting && s'.now == o.now
        && (IsFinished(s.book, r) ==> r in s'.book.refs && s'.book.refs[r] == s.book.refs[r]) by {
      BeginBlockExact(c, o, electorate);
    }
  }

  /** Root cancels the finished referendum while the account's vote on it is still stored. */
  ghost predicate Releases(s: State, call: Call, a: Account, r: RefIndex) {
    call == CallCancelReferendum(r) && VotesOn(VotingAt(s.book.voting, a), r)
  }

  /** At no point of the run is the referendum cancelled from under the account's vote. */
  ghost predicate Undisturbed(c: Settings, s: State, calls: seq<Call>, a: Account, r: RefIndex)
    requires c.launchPeriod > 0 && s.lowest <= s.count
    decreases |calls|
  {
    |calls| > 0 ==>
      var init := calls[..|calls| - 1];
      Undisturbed(c, s, init, a, r) && !Releases(Exec(c, s, init), calls[|calls| - 1], a, r)
  }

  lemma {:induction false} NeverCancelledIsUndisturbed(c: Settings, s: State, calls: seq<Call>, a: Account, r: RefIndex)
    requires c.launchPeriod > 0 && s.lowest <= s.count && CallCancelReferendum(r) !in calls
    ensures Undisturbed(c, s, calls, a, r)
    decreases |calls|
  {
    if |calls| == 0 {
    } else {
      NeverCancelledIsUndisturbed(c, s, calls[..|calls| - 1], a, r);
      assert calls[|calls| - 1] in calls;
    }
  }

  /** Once the vote is gone, cancelling the referendum changes nothing for the account. */
  lemma {:induction false} LateCancelKeepsSecured(c: Settings, s: State, a: Account, r: RefIndex, amount: nat,
                                                  until: nat)
    requires SettingsOk(c) && s.lowest <= s.count && Secured(c, s, a, r, amount, until)
    requires !VotesOn(VotingAt(s.book.voting, a), r)
    ensures Secured(c, Step(c, s, CallCancelReferendum(r)), a, r, amount, until)
  {
  }

  /** Nothing but cancelling the finished referendum under a stored vote can loosen a commitment. */
  lemma {:induction false} StepKeepsSecured(c: Settings, s: State, call: Call, a: Account, r: RefIndex, amount: nat,
                                            until: nat)
    requires SettingsOk(c) && Inv(s) && s.now < MAX_BLOCK && InRange(Step(c, s, call))
    requires Secured(c, s, a, r, amount, until)
    requires !Releases(s, call, a, r)
    ensures Secured(c, Step(c, s, call), a, r, amount, until)
  {
    if IsBookCall(call) {
      BookCallKeepsSecured(c, s, call, a, r, amount, until);
    } else if call == CallCancelReferendum(r) {
      LateCancelKeepsSecured(c, s, a, r, amount, until);
    } else {
      OtherStepsCommit(c, s, call, a, r);
      CommitsKeepSecured(c, s, Step(c, s, call), a, r, amount, until);
    }
  }

  lemma {:induction false} RunKeepsSecured(c: Settings, s: State, calls: seq<Call>, a: Account, r: RefIndex,
                                           amount: nat, until: nat)
    requires SettingsOk(c) && Inv(s) && RunInRange(c, s, calls) && Secured(c, s, a, r, amount, until)
    requires Undisturbed(c, s, calls, a, r)
    ensures Secured(c, Exec(c, s, calls), a, r, amount, until)
    decreases |calls|
  {
    if |calls| == 0 {
    } else {
      var init := calls[..|calls| - 1];
      RunKeepsSecured(c, s, init, a, r, amount, until);
      RunKeepsInvariant(c, s, init);
      StepKeepsSecured(c, Exec(c, s, init), calls[|calls| - 1], a, r, amount, until);
    }
  }

  lemma {:induction false} SecuredStaysFrozen(c: Settings, s: State, calls: seq<Call>, a: Account, r: RefIndex,
                                              amount: nat, until: nat)
    requires SettingsOk(c) && Inv(s) && RunInRange(c, s, calls) && Secured(c, s, a, r, amount, until)
    requires Undisturbed(c, s, calls, a, r)
    ensures Exec(c, s, calls).now < until ==> amount <= At(Exec(c, s, calls).book.frozen, a)
  {
    RunKeepsSecured(c, s, calls, a, r, amount, until);
    RunKeepsInvariant(c, s, calls);
    if Exec(c, s, calls).now < until {
      SecuredIsFrozen(c, Exec(c, s, calls), a, r, amount, until);
    }
  }

  /** A winning standard vote keeps its balance frozen until its conviction runs out, whatever calls
      follow, unless root cancels the finished referendum while the vote is still stored. */
  lemma {:induction false} WinningVoteStaysFrozen(c: Settings, s: State, calls: seq<Call>, a: Account, r: RefIndex)
    requires SettingsOk(c) && Inv(s) && RunInRange(c, s, calls) && Undisturbed(c, s, calls, a, r)
    requires VotesOn(VotingAt(s.book.voting, a), r) && VotingAt(s.book.voting, a).votes[r].Standard?
    requires IsFinished(s.book, r) && s.book.refs[r].approved == VotingAt(s.book.voting, a).votes[r].vote.aye
    ensures var v := VotingAt(s.book.voting, a).votes[r];
            var until := s.book.refs[r].finishedAt + c.voting.voteLockingPeriod * v.vote.conviction.LockPeriods();
            Exec(c, s, calls).now < until && Exec(c, s, calls).now < MAX_BLOCK
            ==> v.balance <= At(Exec(c, s, calls).book.frozen, a)
  {
    var v := VotingAt(s.book.voting, a).votes[r];
    var until := UnlockBlock(c.voting, s.book.refs[r].finishedAt, v.vote.conviction.LockPeriods());
    UnlockBlockIs(c.voting, s.book.refs[r].finishedAt, v.vote.conviction.LockPeriods());
    SecuredStaysFrozen(c, s, calls, a, r, v.balance, until);
  }

  lemma {:induction false} UndelegateSecures(c: Settings, s: State, a: Account, r: RefIndex)
    requires SettingsOk(c) && s.lowest <= s.count && VotingAt(s.book.voting, a).Delegating?
    ensures var v := VotingAt(s.book.voting, a);
            Secured(c, Step(c, s, CallUndelegate(a)), a, r, v.balance,
                    UnlockBlock(c.voting, s.now, v.conviction.LockPeriods()))
  {
  }

  /** A delegation that ends keeps its balance frozen until its conviction runs out. */
  lemma {:induction false} EndedDelegationStaysFrozen(c: Settings, s: State, calls: seq<Call>, a: Account)
    requires SettingsOk(c) && Inv(s) && VotingAt(s.book.voting, a).Delegating?
    requires s.now < MAX_BLOCK && RunInRange(c, Step(c, s, CallUndelegate(a)), calls)
    requires InRange(Step(c, s, CallUndelegate(a)))
    ensures var v := VotingAt(s.book.voting, a);
            var s' := Exec(c, Step(c, s, CallUndelegate(a)), calls);
            var until := s.now + c.voting.voteLockingPeriod * v.conviction.LockPeriods();
            s'.now < until && s'.now < MAX_BLOCK ==> v.balance <= At(s'.book.frozen, a)
  {
    var s1 := Step(c, s, CallUndelegate(a));
    StepKeepsInvariant(c, s, CallUndelegate(a));
    var r := FreshIndex(calls);
    UndelegateSecures(c, s, a, r);
    UnlockBlockIs(c.voting, s.now, VotingAt(s.book.voting, a).conviction.LockPeriods());
    NeverCancelledIsUndisturbed(c, s1, calls, a, r);
    SecuredStaysFrozen(c, s1, calls, a, r, VotingAt(s.book.voting, a).balance,
                       UnlockBlock(c.voting, s.now, VotingAt(s.book.voting, a).conviction.LockPeriods()));
  }

  lemma {:induction false} RedelegateSecures(c: Settings, s: State, a: Account, to: Account, conviction: Conviction,
                                              balance: nat, total: nat, r: RefIndex)
    requires SettingsOk(c) && s.lowest <= s.count && VotingAt(s.book.voting, a).Delegating?
    requires a != to && balance <= total
    ensures var v := VotingAt(s.book.voting, a);
            Secured(c, Step(c, s, CallDelegate(a, to, conviction, balance, total)), a, r, v.balance,
                    UnlockBlock(c.voting, s.now, v.conviction.LockPeriods()))
  {
  }

  /** So does a delegation that is replaced by another one, however small. */
  lemma {:induction false} ReplacedDelegationStaysFrozen(c: Settings, s: State, calls: seq<Call>, a: Account,
                                                         to: Account,
                                                          conviction: Conviction, balance: nat, total: nat)
    requires SettingsOk(c) && Inv(s) && VotingAt(s.book.voting, a).Delegating? && a != to && balance <= total
    requires s.now < MAX_BLOCK && InRange(Step(c, s, CallDelegate(a, to, conviction, balance, total)))
    requires RunInRange(c, Step(c, s, CallDelegate(a, to, conviction, balance, total)), calls)
    ensures var v := VotingAt(s.book.voting, a);
            var s' := Exec(c, Step(c, s, CallDelegate(a, to, conviction, balance, total)), calls);
            var until := s.now + c.voting.voteLockingPeriod * v.conviction.LockPeriods();
            s'.now < until && s'.now < MAX_BLOCK ==> v.balance <= At(s'.book.frozen, a)
  {
    var call := CallDelegate(a, to, conviction, balance, total);
    var v := VotingAt(s.book.voting, a);
    StepKeepsInvariant(c, s, call);
    var r := FreshIndex(calls);
    RedelegateSecures(c, s, a, to, conviction, balance, total, r);
    UnlockBlockIs(c.voting, s.now, v.conviction.LockPeriods());
    NeverCancelledIsUndisturbed(c, Step(c, s, call), calls, a, r);
    SecuredStaysFrozen(c, Step(c, s, call), calls, a, r, v.balance,
                       UnlockBlock(c.voting, s.now, v.conviction.LockPeriods()));
  }

  lemma {:induction false} FreshIndex(calls: seq<Call>) returns (r: RefIndex)
    ensures forall x: nat :: r <= x ==> CallCancelReferendum(x) !in calls
  {
    if |calls| == 0 {
      r := 0;
    } else {
      var n := FreshIndex(calls[..|calls| - 1]);
      var last := calls[|calls| - 1];
      r := if last.CallCancelReferendum? then Max(n, last.r + 1) else n;
      assert calls == calls[..|calls| - 1] + [last];
    }
  }

  /** From that block on nothing is left of the lock: anyone can remove the vote, and unlocking then frees
      an account that has nothing else at stake. A vote that lost, or that was split, is free at once. */
  lemma {:induction false} ExpiredVoteReleases(c: Settings, s: State, signer: Account, a: Account, r: RefIndex)
    requires SettingsOk(c) && s.lowest <= s.count && IsFinished(s.book, r)
    requires VotingAt(s.book.voting, a).Direct? && VotingAt(s.book.voting, a).votes.Keys == {r}
    requires VotingAt(s.book.voting, a).prior.until <= s.now
    requires var v := VotingAt(s.book.voting, a).votes[r];
             v.Standard? && v.vote.aye == s.book.refs[r].approved ==>
               var until := s.book.refs[r].finishedAt + c.voting.voteLockingPeriod * v.vote.conviction.LockPeriods();
               until <= s.now || MAX_BLOCK <= s.now
    ensures At(Exec(c, s, [CallRemoveVote(signer, a, r), CallUnlock(a)]).book.frozen, a) == 0
  {
    var v := VotingAt(s.book.voting, a);
    if v.votes[r].Standard? {
      UnlockBlockIs(c.voting, s.book.refs[r].finishedAt, v.votes[r].vote.conviction.LockPeriods());
    }
    var s1 := Step(c, s, CallRemoveVote(signer, a, r));
    VoteForgotten(c, s, signer, a, r);
    IdleUnlocks(c, s1, a);
    TwoCalls(c, s, CallRemoveVote(signer, a, r), CallUnlock(a));
  }

  lemma {:induction false} VoteForgotten(c: Settings, s: State, signer: Account, a: Account, r: RefIndex)
    requires SettingsOk(c) && s.lowest <= s.count && IsFinished(s.book, r)
    requires VotingAt(s.book.voting, a).Direct? && VotingAt(s.book.voting, a).votes.Keys == {r}
    requires var lock := VotingAt(s.book.voting, a).votes[r].LockedIf(s.book.refs[r].approved);
             lock.Some? ==> UnlockBlock(c.voting, s.book.refs[r].finishedAt, lock.value.0) <= s.now
    ensures var s', v := Step(c, s, CallRemoveVote(signer, a, r)), VotingAt(s.book.voting, a);
            s'.now == s.now && VotingAt(s'.book.voting, a) == Direct(map[], v.delegations, v.prior)
  {
    var v := VotingAt(s.book.voting, a);
    assert v.votes - {r} == map[];
  }

  /** An account that neither votes nor delegates, with an expired lock, is free once it unlocks. */
  lemma {:induction false} IdleUnlocks(c: Settings, s: State, a: Account)
    requires SettingsOk(c) && s.lowest <= s.count
    requires VotingAt(s.book.voting, a).Direct? && VotingAt(s.book.voting, a).votes == map[]
    requires VotingAt(s.book.voting, a).prior.until <= s.now
    ensures At(Step(c, s, CallUnlock(a)).book.frozen, a) == 0
  {
  }

  lemma {:induction false} TwoCalls(c: Settings, s: State, first: Call, second: Call)
    requires c.launchPeriod > 0 && s.lowest <= s.count
    ensures Exec(c, s, [first, second]) == Step(c, Step(c, s, first), second)
  {
    assert [first, second][..1] == [first] && [first][..0] == [];
    assert Exec(c, s, [first]) == Step(c, s, first);
  }

  /** Likewise for an ended delegation: from the end of its lock on, an account whose record has not
      changed since is free once it unlocks. */
  lemma {:induction false} ExpiredDelegationReleases(c: Settings, s: State, later: State, a: Account)
    requires SettingsOk(c) && s.lowest <= s.count && later.lowest <= later.count
    requires VotingAt(s.book.voting, a).Delegating?
    requires VotingAt(later.book.voting, a) == VotingAt(Step(c, s, CallUndelegate(a)).book.voting, a)
    requires VotingAt(s.book.voting, a).prior.until <= later.now
    requires var periods := VotingAt(s.book.voting, a).conviction.LockPeriods();
             s.now + c.voting.voteLockingPeriod * periods <= later.now || MAX_BLOCK <= later.now
    ensures At(Step(c, later, CallUnlock(a)).book.frozen, a) == 0
  {
    UnlockBlockIs(c.voting, s.now, VotingAt(s.book.voting, a).conviction.LockPeriods());
    DelegationForgotten(c, s, a);
    IdleUnlocks(c, later, a);
  }

  lemma {:induction false} DelegationForgotten(c: Settings, s: State, a: Account)
    requires SettingsOk(c) && s.lowest <= s.count && VotingAt(s.book.voting, a).Delegating?
    ensures var v := VotingAt(s.book.voting, a);
            var until := UnlockBlock(c.voting, s.now, v.conviction.LockPeriods());
            VotingAt(Step(c, s, CallUndelegate(a)).book.voting, a)
            == Direct(map[], v.delegations, v.prior.Accumulate(until, v.balance))
  {
  }

  /** The exception is real: cancelling the finished referendum lets a winning voter, with nothing
      else at stake, out at once, whatever the conviction. */
  lemma {:induction false} CancellationReleases(c: Settings, s: State, a: Account, r: RefIndex)
    requires SettingsOk(c) && s.lowest <= s.count && IsFinished(s.book, r)
    requires VotingAt(s.book.voting, a).Direct? && VotingAt(s.book.voting, a).votes.Keys == {r}
    requires VotingAt(s.book.voting, a).prior == NO_LOCK
    ensures At(Exec(c, s, [CallCancelReferendum(r), CallRemoveVote(a, a, r), CallUnlock(a)]).book.frozen, a) == 0
  {
    var s1 := Step(c, s, CallCancelReferendum(r));
    var s2 := Step(c, s1, CallRemoveVote(a, a, r));
    var calls := [CallCancelReferendum(r), CallRemoveVote(a, a, r), CallUnlock(a)];
    assert calls[..2][..1] == [calls[0]] && calls[..2] == [calls[0], calls[1]];
    assert Exec(c, s, calls) == Step(c, Step(c, Step(c, s, calls[0]), calls[1]), calls[2]) by {
      assert calls[..2][..1][..0] == [];
      assert Exec(c, s, calls[..2][..1]) == s1;
      assert Exec(c, s, calls[..2]) == s2;
    }
    assert VotingAt(s2.book.voting, a).votes == map[];
  }
}
