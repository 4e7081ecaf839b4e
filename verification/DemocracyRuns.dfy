/** What holds in every reachable state, and along every run, of the democracy pallet. */
module DemocracyRuns {
  import opened Totals
  import opened DemocracyTypes
  import opened DemocracyVoting
  import opened DemocracyVotingInvariant
  import opened VoteThreshold
  import opened Democracy
  import Q = DemocracyQueue

  // ------------------------------------------------------------- scheduling

  /** `Inv`, except that ongoing referenda may end in the current block: what `begin_block` finds. */
  ghost predicate Opening(s: State) {
    && BookInv(s.book, s.count) && Q.QueueInv(s.queue)
    && s.lowest <= s.count
    && (forall r: nat :: r < s.lowest ==> !IsOngoing(s.book.refs, r))
    && (forall r :: IsOngoing(s.book.refs, r) ==> s.now <= s.book.refs[r].status.end)
  }

  lemma {:induction false} NoVotesNoTally(m: map<Account, Voting>, r: RefIndex)
    requires RecordsOk(m, r)
    ensures TallyOf(m, r) == EMPTY_TALLY
  {
    forall a | a in m ensures !VotesOn(m[a], r) {
      assert RecordOk(a, m[a], r);
    }
    TotalZero(Weights(m, AyesOn(r)));
    TotalZero(Weights(m, NaysOn(r)));
    TotalZero(Weights(m, TurnoutOn(r)));
  }

  lemma {:induction false} RecordsStayOk(m: map<Account, Voting>, count: nat)
    requires RecordsOk(m, count)
    ensures RecordsOk(m, count + 1)
  {
  }

  lemma {:induction false} InjectKeepsBook(s: State, end: nat, proposal: Proposal, threshold: Threshold, delay: nat)
    requires BookInv(s.book, s.count)
    ensures BookInv(InjectReferendum(s, end, proposal, threshold, delay).book, s.count + 1)
  {
    NoVotesNoTally(s.book.voting, s.count);
    RecordsStayOk(s.book.voting, s.count);
    var b := InjectReferendum(s, end, proposal, threshold, delay).book;
    forall r | IsOngoing(b.refs, r) ensures b.refs[r].status.tally == TallyOf(b.voting, r) {
      if r != s.count { assert IsOngoing(s.book.refs, r); }
    }
  }

  /** What launching may do: at most one new referendum, ending later, and nothing else in the book. */
  ghost predicate Launched(s: State, s': State) {
    && s'.now == s.now && s'.lowest == s.lowest
    && Opening(s')
    && s'.book.voting == s.book.voting && s'.book.frozen == s.book.frozen
    && (|| (s'.count == s.count && s'.book.refs == s.book.refs)
        || (&& s'.count == s.count + 1 && IsOngoing(s'.book.refs, s.count)
            && s.now < s'.book.refs[s.count].status.end
            && s'.book.refs == s.book.refs[s.count := s'.book.refs[s.count]]))
  }

  lemma {:induction false} InjectLaunches(s: State, q: Q.Queue, period: nat, proposal: Proposal, threshold: Threshold,
                                          delay: nat)
    requires Opening(s) && Q.QueueInv(q) && period > 0 && s.now < MAX_BLOCK
    ensures Launched(s, InjectReferendum(s.(queue := q), BlockAdd(s.now, period), proposal, threshold, delay))
  {
    InjectKeepsBook(s.(queue := q), BlockAdd(s.now, period), proposal, threshold, delay);
    var s' := InjectReferendum(s.(queue := q), BlockAdd(s.now, period), proposal, threshold, delay);
    forall r | IsOngoing(s'.book.refs, r) ensures s.now <= s'.book.refs[r].status.end {
      if r != s.count { assert IsOngoing(s.book.refs, r); }
    }
    forall r: nat | r < s.lowest ensures !IsOngoing(s'.book.refs, r) {
      assert !IsOngoing(s.book.refs, r);
    }
  }

  lemma {:induction false} SwapRemoveKeeps(q: Q.Queue, i: nat)
    requires Q.QueueInv(q) && i < |q.props|
    ensures Q.QueueInv(q.(props := Q.SwapRemove(q.props, i)))
    ensures forall x :: x in Q.SwapRemove(q.props, i) <==> x in q.props && x.index != q.props[i].index
  {
    var s, rest := q.props, Q.SwapRemove(q.props, i);
    forall j | 0 <= j < |rest| ensures rest[j] == if j == i then s[|s| - 1] else s[j] {
    }
    forall x | x in s && x.index != s[i].index ensures x in rest {
      var j :| 0 <= j < |s| && s[j] == x;
      assert rest[if j == |s| - 1 then i else j] == x;
    }
  }

  /** Tabling picks a public proposal with the highest backing, refunds its depositors, and never
      meets a queued proposal without a deposit. The referendum needs a super majority and lasts the
      voting period. */
  lemma {:induction false} LaunchPublicExact(c: Settings, s: State)
    requires SettingsOk(c) && Opening(s) && s.now < MAX_BLOCK && |s.queue.props| > 0
    ensures LaunchPublic(c, s).Some? && Launched(s, LaunchPublic(c, s).value)
    ensures var s' := LaunchPublic(c, s).value;
            exists p :: && p in s.queue.props && p.index in s.queue.deposits
                        && (forall x :: x in s.queue.props ==>
                              Q.Backing(s.queue, x.index) <= Q.Backing(s.queue, p.index))
                        && s'.count == s.count + 1 && s'.queue.deposits == s.queue.deposits - {p.index}
                        && (forall x :: x in s'.queue.props <==> x in s.queue.props && x.index != p.index)
                        && s'.book.refs[s.count]
                           == Ongoing(Status(Min(s.now + c.votingPeriod, MAX_BLOCK), p.proposal, SuperMajorityApprove,
                                             c.enactmentPeriod, EMPTY_TALLY))
  {
    var i := Q.BestBacked(s.queue, |s.queue.props|);
    var p := s.queue.props[i];
    var q := s.queue.(props := Q.SwapRemove(s.queue.props, i));
    SwapRemoveKeeps(s.queue, i);
    TakeUnqueuedKeeps(q, p.index);
    InjectLaunches(s, Q.TakeDeposit(q, p.index), c.votingPeriod, p.proposal, SuperMajorityApprove, c.enactmentPeriod);
    forall x | x in s.queue.props ensures Q.Backing(s.queue, x.index) <= Q.Backing(s.queue, p.index) {
      var j :| 0 <= j < |s.queue.props| && s.queue.props[j] == x;
    }
  }

  lemma {:induction false} TakeUnqueuedKeeps(q: Q.Queue, p: PropIndex)
    requires Q.QueueInv(q) && p in q.deposits
    requires forall x :: x in q.props ==> x.index != p
    ensures Q.QueueInv(Q.TakeDeposit(q, p))
  {
    Q.TakeKeepsLedger(q, p);
    forall i | 0 <= i < |q.props| ensures q.props[i].index in q.deposits - {p} {
      assert q.props[i] in q.props;
    }
  }

  /** Tabling an external proposal succeeds exactly when one waits. It becomes the newest referendum,
      with its own threshold, lasts the voting period, and no longer waits. */
  lemma {:induction false} LaunchExternalExact(c: Settings, s: State)
    requires SettingsOk(c) && Opening(s) && s.now < MAX_BLOCK
    ensures LaunchExternal(c, s).Some? <==> s.queue.nextExternal.Some?
    ensures s.queue.nextExternal.Some? ==>
      var s', waiting := LaunchExternal(c, s).value, s.queue.nextExternal.value;
      && Launched(s, s') && s'.count == s.count + 1 && s'.queue.nextExternal.None?
      && s'.book.refs[s.count]
         == Ongoing(Status(Min(s.now + c.votingPeriod, MAX_BLOCK), waiting.0, waiting.1, c.enactmentPeriod,
                           EMPTY_TALLY))
  {
    if s.queue.nextExternal.Some? {
      var (proposal, threshold) := s.queue.nextExternal.value;
      InjectLaunches(s, s.queue.(nextExternal := None, lastWasExternal := true), c.votingPeriod,
                     proposal, threshold, c.enactmentPeriod);
    }
  }

  lemma {:induction false} LaunchNextLaunches(c: Settings, s: State)
    requires SettingsOk(c) && Opening(s) && s.now < MAX_BLOCK
    ensures Launched(s, LaunchNext(c, s))
  {
    var s' := s.(queue := s.queue.(lastWasExternal := false));
    if s'.queue.nextExternal.Some? {
      var (proposal, threshold) := s'.queue.nextExternal.value;
      InjectLaunches(s', s'.queue.(nextExternal := None, lastWasExternal := true), c.votingPeriod,
                     proposal, threshold, c.enactmentPeriod);
    }
    if |s'.queue.props| > 0 {
      LaunchPublicExact(c, s');
    }
  }

  /** With both kinds waiting, a public proposal is tabled after an external one and an external one
      otherwise; either way one referendum is launched and the other kind keeps waiting. */
  lemma {:induction false} TablingAlternates(c: Settings, s: State)
    requires SettingsOk(c) && Opening(s) && s.now < MAX_BLOCK
    requires s.queue.nextExternal.Some? && |s.queue.props| > 0
    ensures var q, s' := s.queue, LaunchNext(c, s);
            && s'.count == s.count + 1
            && s'.queue.lastWasExternal != q.lastWasExternal
            && (if q.lastWasExternal then s'.queue.nextExternal == q.nextExternal && |s'.queue.props| == |q.props| - 1
                else s'.queue.nextExternal.None? && s'.queue.props == q.props)
  {
    LaunchPublicExact(c, s.(queue := s.queue.(lastWasExternal := false)));
  }

  /** Whether a proposal of either kind waits to be tabled. */
  predicate SomethingWaits(s: State) {
    s.queue.nextExternal.Some? || |s.queue.props| > 0
  }

  lemma {:induction false} LaunchNextTables(c: Settings, s: State)
    requires SettingsOk(c) && Opening(s) && s.now < MAX_BLOCK
    ensures LaunchNext(c, s).count == s.count + if SomethingWaits(s) then 1 else 0
  {
    var s' := s.(queue := s.queue.(lastWasExternal := false));
    LaunchExternalExact(c, s');
    if |s.queue.props| > 0 { LaunchPublicExact(c, s'); }
  }

  /** A block tables a proposal, and then exactly one, if and only if its number is a multiple of the
      launch period and something waits. */
  lemma {:induction false} BlockTablesIff(c: Settings, s: State, electorate: Electorate)
    requires SettingsOk(c) && Opening(s) && s.now < MAX_BLOCK
    ensures BeginBlock(c, s, electorate).count
         == s.count + if s.now % c.launchPeriod == 0 && SomethingWaits(s) then 1 else 0
  {
    if s.now % c.launchPeriod == 0 { LaunchNextTables(c, s); }
  }

  /** Scanning only from `LowestUnbaked` to the old count finds what scanning everything finds. */
  lemma {:induction false} PartialScanIsFullScan(s: State, s': State, electorate: Electorate)
    requires Opening(s) && Launched(s, s')
    ensures BakeRange(s'.book.refs, s.now, electorate, s.lowest, s.count)
         == BakeRange(s'.book.refs, s.now, electorate, 0, s'.count)
  {
    var refs := s'.book.refs;
    assert forall r: nat :: r < s.lowest ==> !IsOngoing(refs, r);
    assert forall r: nat :: Matures(refs, r, s.now) ==> s.lowest <= r < s.count;
    assert forall r :: r in refs ==> r < s'.count;
  }

  lemma {:induction false} BakeKeepsBook(b: Book, now: nat, electorate: Electorate, lo: nat, hi: nat, count: nat)
    requires BookInv(b, count)
    ensures BookInv(b.(refs := BakeRange(b.refs, now, electorate, lo, hi)), count)
  {
  }

  /** `begin_block` bakes every referendum ending now, keeps everything else, and leaves
      `LowestUnbaked` at the count or at an ongoing referendum. */
  lemma {:induction false} BeginBlockExact(c: Settings, s: State, electorate: Electorate)
    requires SettingsOk(c) && Opening(s) && s.now < MAX_BLOCK
    ensures var s' := BeginBlock(c, s, electorate);
            && Inv(s')
            && (s'.lowest == s'.count || IsOngoing(s'.book.refs, s'.lowest))
            && s'.now == s.now && s'.count >= s.count
            && s'.book.voting == s.book.voting && s'.book.frozen == s.book.frozen
            && (forall r :: r in s.book.refs ==> r in s'.book.refs && r < s'.count)
            && (forall r :: r in s.book.refs && !Matures(s.book.refs, r, s.now) ==> s'.book.refs[r] == s.book.refs[r])
            && (forall r :: Matures(s.book.refs, r, s.now) ==>
                  var status := s.book.refs[r].status;
                  s'.book.refs[r] == Finished(Approved(status.threshold, status.tally, electorate), s.now))
  {
    var l := if s.now % c.launchPeriod == 0 then LaunchNext(c, s) else s;
    if s.now % c.launchPeriod == 0 { LaunchNextLaunches(c, s); }
    assert Launched(s, l);
    PartialScanIsFullScan(s, l, electorate);
    BakeKeepsBook(l.book, s.now, electorate, s.lowest, s.count, l.count);
    BakedSchedule(s, l, electorate);
  }

  lemma {:induction false} BakedSchedule(s: State, l: State, electorate: Electorate)
    requires Opening(s) && Launched(s, l)
    requires BakeRange(l.book.refs, s.now, electorate, s.lowest, s.count)
          == BakeRange(l.book.refs, s.now, electorate, 0, l.count)
    ensures var refs := BakeRange(l.book.refs, s.now, electorate, s.lowest, s.count);
            var lowest := SkipBaked(refs, s.lowest, s.count);
            && (forall r: nat :: r < lowest ==> !IsOngoing(refs, r))
            && (forall r :: IsOngoing(refs, r) ==> s.now < refs[r].status.end)
            && lowest <= l.count && (lowest == l.count || IsOngoing(refs, lowest))
  {
    var refs := BakeRange(l.book.refs, s.now, electorate, s.lowest, s.count);
    forall r: nat | r < s.lowest ensures !IsOngoing(refs, r) {
      assert !IsOngoing(l.book.refs, r);
    }
    forall r | IsOngoing(refs, r) ensures s.now < refs[r].status.end {
      assert IsOngoing(l.book.refs, r);
      assert !Matures(l.book.refs, r, s.now);
    }
  }

  // ----------------------------------------------------- every step, every run

  lemma {:induction false} CancelReferendumKeepsInvariant(s: State, r: RefIndex)
    requires Inv(s)
    ensures Inv(CancelReferendum(s, r))
  {
    var s' := CancelReferendum(s, r);
    forall x | IsOngoing(s'.book.refs, x)
      ensures s'.book.refs[x].status.tally == TallyOf(s'.book.voting, x)
      ensures s'.now < s'.book.refs[x].status.end
    {
      assert IsOngoing(s.book.refs, x);
    }
    forall x: nat | x < s.lowest ensures !IsOngoing(s'.book.refs, x) {
      assert !IsOngoing(s.book.refs, x);
    }
  }

  /** The voting calls: they change the book and no referendum's schedule. */
  ghost predicate IsBookCall(call: Call) {
    call.CallVote? || call.CallRemoveVote? || call.CallDelegate? || call.CallUndelegate? || call.CallUnlock?
  }

  /** Same referenda, same stages, same ends: only tallies may differ. */
  ghost predicate SameStages(refs: map<RefIndex, ReferendumInfo>, refs': map<RefIndex, ReferendumInfo>) {
    && refs.Keys == refs'.Keys
    && forall r :: r in refs ==>
         if refs[r].Ongoing?
         then refs'[r].Ongoing? && refs'[r].status == refs[r].status.(tally := refs'[r].status.tally)
         else refs'[r] == refs[r]
  }

  lemma {:induction false} BookCallKeepsStages(c: Settings, s: State, call: Call)
    requires c.launchPeriod > 0 && s.lowest <= s.count && IsBookCall(call)
    ensures SameStages(s.book.refs, Step(c, s, call).book.refs)
    ensures Step(c, s, call) == s.(book := Step(c, s, call).book)
  {
    match call
    case CallVote(_, _, _, _) =>
    case CallRemoveVote(_, _, _) =>
    case CallDelegate(who, to, conviction, balance, total) =>
      if TryDelegate(c.voting, s.book, s.now, who, to, conviction, balance, total).Ok? {
        DelegateKeepsStages(c.voting, s.book, s.now, who, to, conviction, balance, total);
      }
    case CallUndelegate(who) =>
      var v := VotingAt(s.book.voting, who);
      if v.Delegating? { UpstreamKeepsStages(s.book, v.target, v.conviction.Votes(v.balance)); }
    case CallUnlock(_) =>
  }

  lemma {:induction false} UpstreamKeepsStages(b: Book, target: Account, amount: Delegations)
    ensures SameStages(b.refs, IncreaseUpstream(b, target, amount).refs)
    ensures SameStages(b.refs, ReduceUpstream(b, target, amount).refs)
  {
  }

  lemma {:induction false} DelegateKeepsStages(c: Config, b: Book, now: nat, who: Account, to: Account,
                                               conviction: Conviction, balance: nat, total: nat)
    requires TryDelegate(c, b, now, who, to, conviction, balance, total).Ok?
    ensures SameStages(b.refs, TryDelegate(c, b, now, who, to, conviction, balance, total).value.refs)
  {
    var v := VotingAt(b.voting, who);
    var freed := if v.Delegating? then ReduceUpstream(b, v.target, v.conviction.Votes(v.balance)) else b;
    if v.Delegating? { UpstreamKeepsStages(b, v.target, v.conviction.Votes(v.balance)); }
    UpstreamKeepsStages(freed, to, conviction.Votes(balance));
  }

  lemma {:induction false} BookCallKeepsBook(c: Settings, s: State, call: Call)
    requires c.launchPeriod > 0 && Inv(s) && IsBookCall(call) && InRange(Step(c, s, call))
    ensures BookInv(Step(c, s, call).book, s.count)
  {
    var b := s.book;
    match call
    case CallVote(who, r, vote, total) =>
      if TryVote(c.voting, b, who, r, vote, total).Ok? {
        VoteKeepsInvariant(c.voting, b, who, r, vote, total, s.count);
      }
    case CallRemoveVote(signer, voter, r) =>
      if TryRemoveVote(c.voting, b, s.now, voter, r, signer == voter).Ok? {
        RemoveVoteKeepsInvariant(c.voting, b, s.now, voter, r, signer == voter, s.count);
      }
    case CallDelegate(who, to, conviction, balance, total) =>
      if TryDelegate(c.voting, b, s.now, who, to, conviction, balance, total).Ok? {
        DelegateKeepsInvariant(c.voting, b, s.now, who, to, conviction, balance, total, s.count);
      }
    case CallUndelegate(who) =>
      if TryUndelegate(c.voting, b, s.now, who).Ok? { UndelegateKeepsInvariant(c.voting, b, s.now, who, s.count); }
    case CallUnlock(voter) => UnlockKeepsInvariant(b, s.now, voter, s.count);
  }

  lemma {:induction false} SameStagesKeepSchedule(s: State, b: Book)
    requires ScheduleInv(s) && SameStages(s.book.refs, b.refs)
    ensures ScheduleInv(s.(book := b))
  {
  }

  lemma {:induction false} QueueCallKeepsInvariant(c: Settings, s: State, call: Call)
    requires SettingsOk(c) && Inv(s) && s.now < MAX_BLOCK
    requires !IsBookCall(call) && !call.NextBlock?
    ensures Inv(Step(c, s, call))
  {
    match call
    case CallPropose(who, proposal, value, canHold) =>
      if Q.Propose(c.queue, s.queue, s.now, who, proposal, value, canHold).Some? {
        Q.ProposeKeepsInvariant(c.queue, s.queue, s.now, who, proposal, value, canHold);
      }
    case CallSecond(who, p, canHold) =>
      if Q.Second(c.queue, s.queue, who, p, canHold).Some? {
        Q.SecondKeepsInvariant(c.queue, s.queue, who, p, canHold);
      }
    case CallCancelProposal(p) => Q.CancelKeepsInvariant(s.queue, p);
    case CallBlacklist(proposal, maybeRef) =>
      Q.BlacklistKeepsInvariant(s.queue, proposal);
      var s' := s.(queue := Q.BlacklistProposal(s.queue, proposal));
      assert Inv(s');
      if maybeRef.Some? { CancelReferendumKeepsInvariant(s', maybeRef.value); }
    case CallClearProposals =>
    case CallExternalPropose(_, _) =>
    case CallFastTrack(proposal, period, delay, permitted) =>
      if s.queue.nextExternal.Some? && period > 0 {
        var (waiting, threshold) := s.queue.nextExternal.value;
        InjectLaunches(s, s.queue.(nextExternal := None), period, waiting, threshold, delay);
      }
    case CallCancelReferendum(r) => CancelReferendumKeepsInvariant(s, r);
  }

  // ------------------------------------------------- what the other calls do

  /** An external proposal is refused only if it needs a super majority and another one waits or it is
      blacklisted; otherwise it is the one waiting. Nothing else changes. */
  lemma {:induction false} ExternalProposeWaits(c: Settings, s: State, proposal: Proposal, threshold: Threshold)
    requires SettingsOk(c) && s.lowest <= s.count
    ensures var s' := Step(c, s, CallExternalPropose(proposal, threshold));
            var refused := threshold == SuperMajorityApprove
                           && (s.queue.nextExternal.Some? || (proposal in s.queue.blacklist
                                                              && s.now < s.queue.blacklist[proposal]));
            s' == s.(queue := s.queue.(nextExternal := if refused then s.queue.nextExternal
                                                       else Some((proposal, threshold))))
  {
  }

  /** A fast track launches the waiting external proposal, for the period asked for, if and only if it is
      the one named, does not need a super majority, and the origin and the period allow it. */
  lemma {:induction false} FastTrackLaunchesIff(c: Settings, s: State, proposal: Proposal, period: nat, delay: nat,
                                                permitted: bool)
    requires SettingsOk(c) && Inv(s) && s.now < MAX_BLOCK
    ensures var s', waiting := Step(c, s, CallFastTrack(proposal, period, delay, permitted)), s.queue.nextExternal;
            if waiting.Some? && waiting.value.0 == proposal && waiting.value.1 != SuperMajorityApprove
               && period > 0 && permitted
            then && s'.count == s.count + 1 && s'.queue == s.queue.(nextExternal := None)
                 && s'.book == s.book.(refs := s.book.refs[s.count :=
                      Ongoing(Status(Min(s.now + period, MAX_BLOCK), proposal, waiting.value.1, delay, EMPTY_TALLY))])
            else s' == s
  {
  }

  /** Clearing the public proposals empties the queue and leaves every deposit and every hold in place. */
  lemma {:induction false} ClearLeavesDeposits(c: Settings, s: State)
    requires SettingsOk(c) && s.lowest <= s.count
    ensures Step(c, s, CallClearProposals) == s.(queue := s.queue.(props := []))
  {
  }

  /** Every call keeps every invariant. */
  lemma {:induction false} StepKeepsInvariant(c: Settings, s: State, call: Call)
    requires SettingsOk(c) && Inv(s) && s.now < MAX_BLOCK && InRange(Step(c, s, call))
    ensures Inv(Step(c, s, call))
  {
    if call.NextBlock? {
      NextBlockKeepsNow(c, s, call.electorate);
      NextBlockKeepsInvariant(c, s, call.electorate);
    } else if IsBookCall(call) {
      BookCallKeepsStages(c, s, call);
      BookCallKeepsBook(c, s, call);
      SameStagesKeepSchedule(s, Step(c, s, call).book);
    } else {
      QueueCallKeepsInvariant(c, s, call);
    }
  }

  lemma {:induction false} NextBlockKeepsInvariant(c: Settings, s: State, electorate: Electorate)
    requires SettingsOk(c) && Inv(s) && s.now + 1 < MAX_BLOCK
    ensures Inv(Step(c, s, NextBlock(electorate)))
  {
    BlockOpens(s);
    BeginBlockKeepsInvariant(c, s.(now := s.now + 1), electorate);
    NextBlockIsBeginBlock(c, s, electorate);
  }

  lemma {:induction false} BlockOpens(s: State)
    requires Inv(s)
    ensures Opening(s.(now := s.now + 1))
  {
  }

  lemma {:induction false} BeginBlockKeepsInvariant(c: Settings, s: State, electorate: Electorate)
    requires SettingsOk(c) && Opening(s) && s.now < MAX_BLOCK
    ensures Inv(BeginBlock(c, s, electorate))
  {
    BeginBlockExact(c, s, electorate);
  }

  lemma {:induction false} NextBlockIsBeginBlock(c: Settings, s: State, electorate: Electorate)
    requires c.launchPeriod > 0 && s.lowest <= s.count
    ensures Step(c, s, NextBlock(electorate)) == BeginBlock(c, s.(now := s.now + 1), electorate)
  {
  }

  lemma {:induction false} NextBlockKeepsNow(c: Settings, s: State, electorate: Electorate)
    requires c.launchPeriod > 0 && s.lowest <= s.count
    ensures Step(c, s, NextBlock(electorate)).now == s.now + 1
  {
  }

  /** Every state reachable from genesis, by any calls, satisfies the invariants. */
  lemma {:induction false} ReachableInvariant(c: Settings, calls: seq<Call>)
    requires SettingsOk(c) && RunInRange(c, GENESIS, calls)
    ensures Inv(Exec(c, GENESIS, calls))
  {
    GenesisInvariant();
    RunKeepsInvariant(c, GENESIS, calls);
  }

  lemma {:induction false} GenesisInvariant()
    ensures Inv(GENESIS)
  {
    var m := GENESIS.book.voting;
    forall a ensures VotingAt(m, a).delegations == DelegatedTo(m, a) {
      TotalZero(Weights(m, VotesFor(a)));
      TotalZero(Weights(m, CapitalFor(a)));
    }
    forall a ensures At(GENESIS.queue.held, a) == Q.Owed(GENESIS.queue.deposits, a) {
      TotalZero(Q.Shares(GENESIS.queue.deposits, a));
    }
  }

  lemma {:induction false} RunKeepsInvariant(c: Settings, s: State, calls: seq<Call>)
    requires SettingsOk(c) && Inv(s) && RunInRange(c, s, calls)
    ensures Inv(Exec(c, s, calls))
    decreases |calls|
  {
    if |calls| == 0 {
    } else {
      RunKeepsInvariant(c, s, calls[..|calls| - 1]);
      StepKeepsInvariant(c, Exec(c, s, calls[..|calls| - 1]), calls[|calls| - 1]);
    }
  }
}
