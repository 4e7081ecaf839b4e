/** Every voting, delegation and lock step keeps the cached tallies, delegations and freezes exact. */
module DemocracyVotingInvariant {
  import opened Totals
  import opened DemocracyTypes
  import opened DemocracyVoting

  // ------------------------------------------------------------------ voting

  lemma {:induction false} PlusCancels(x: Tally, y: Tally, z: Tally)
    requires x.Plus(z) == y.Plus(z)
    ensures x == y
  {
  }

  lemma {:induction false} PlusEmpty(t: Tally)
    ensures t.Plus(EMPTY_TALLY) == t
  {
  }

  lemma {:induction false} TallyShift(m: map<Account, Voting>, who: Account, w: Voting, r: RefIndex)
    ensures TallyOf(m[who := w], r).Plus(Contribution(VotingAt(m, who), r))
         == TallyOf(m, r).Plus(Contribution(w, r))
  {
    SumUpdate(m, who, w, AyesOn(r));
    SumUpdate(m, who, w, NaysOn(r));
    SumUpdate(m, who, w, TurnoutOn(r));
    PlusBalanced(TallyOf(m[who := w], r), Contribution(VotingAt(m, who), r), TallyOf(m, r), Contribution(w, r));
  }

  lemma {:induction false} PlusBalanced(x: Tally, y: Tally, z: Tally, u: Tally)
    requires x.ayes + y.ayes == z.ayes + u.ayes
    requires x.nays + y.nays == z.nays + u.nays
    requires x.turnout + y.turnout == z.turnout + u.turnout
    ensures x.Plus(y) == z.Plus(u)
  {
  }

  lemma {:induction false} TallyCovers(m: map<Account, Voting>, who: Account, r: RefIndex) returns (rest: Tally)
    ensures TallyOf(m, r) == rest.Plus(Contribution(VotingAt(m, who), r))
  {
    SumCovers(m, who, AyesOn(r));
    SumCovers(m, who, NaysOn(r));
    SumCovers(m, who, TurnoutOn(r));
    var t, u := TallyOf(m, r), Contribution(VotingAt(m, who), r);
    rest := Tally(t.ayes - u.ayes, t.nays - u.nays, t.turnout - u.turnout);
  }

  /** Changing the votes or the prior lock of a direct voter moves no delegation. */
  lemma {:induction false} DirectChangeKeepsDelegations(m: map<Account, Voting>, who: Account, w: Voting)
    requires DelegationsExact(m)
    requires VotingAt(m, who).Direct? && w.Direct? && w.delegations == VotingAt(m, who).delegations
    ensures DelegationsExact(m[who := w])
  {
    var n := m[who := w];
    forall a ensures VotingAt(n, a).delegations == DelegatedTo(n, a) {
      SumUnseen(m, who, w, VotesFor(a));
      SumUnseen(m, who, w, CapitalFor(a));
      assert VotingAt(m, a).delegations == DelegatedTo(m, a);
    }
  }

  lemma {:induction false} ClearedRemoves(rest: Tally, v: Voting, r: RefIndex)
    requires v.Direct?
    ensures Cleared(rest.Plus(Contribution(v, r)), v, r) == Some(rest)
  {
  }

  /** The cached tally of an ongoing referendum can always be rolled back exactly. */
  lemma {:induction false} ClearedExact(b: Book, who: Account, r: RefIndex) returns (rest: Tally)
    requires TalliesExact(b) && IsOngoing(b.refs, r) && VotingAt(b.voting, who).Direct?
    ensures TallyOf(b.voting, r) == rest.Plus(Contribution(VotingAt(b.voting, who), r))
    ensures Cleared(b.refs[r].status.tally, VotingAt(b.voting, who), r) == Some(rest)
  {
    rest := TallyCovers(b.voting, who, r);
    ClearedRemoves(rest, VotingAt(b.voting, who), r);
  }

  /** The record of `who` once `vote` on `r` is stored. */
  ghost function Voted(m: map<Account, Voting>, who: Account, r: RefIndex, vote: AccountVote): map<Account, Voting>
    requires VotingAt(m, who).Direct?
  {
    var v := VotingAt(m, who);
    m[who := v.(votes := v.votes[r := vote])]
  }

  lemma {:induction false} VotedWithinLock(m: map<Account, Voting>, who: Account, r: RefIndex, vote: AccountVote)
    requires VotingAt(m, who).Direct?
    ensures vote.Balance() <= Sum(Voted(m, who, r, vote), Locked)
  {
    var n := Voted(m, who, r, vote);
    assert n[who].Balances()[r] == vote.Balance();
    SumCovers(n, who, Locked);
  }

  lemma {:induction false} VotedRecords(m: map<Account, Voting>, who: Account, r: RefIndex, vote: AccountVote,
                                        count: nat)
    requires VotingAt(m, who).Direct? && RecordsOk(m, count) && r < count
    requires Funded(Voted(m, who, r, vote))
    ensures RecordsOk(Voted(m, who, r, vote), count)
  {
    VotedWithinLock(m, who, r, vote);
    assert RecordOk(who, VotingAt(m, who), count);
  }

  lemma {:induction false} Transfer(after: Tally, before: Tally, rest: Tally, out: Tally, inn: Tally)
    requires after.Plus(out) == before.Plus(inn) && before == rest.Plus(out)
    ensures after == rest.Plus(inn)
  {
  }

  lemma {:induction false} CastExact(m: map<Account, Voting>, who: Account, r: RefIndex, vote: AccountVote, t: Tally)
    requires VotingAt(m, who).Direct?
    requires TallyOf(m, r) == t.Plus(Contribution(VotingAt(m, who), r))
    requires TallyOf(Voted(m, who, r, vote), r).Representable()
    ensures t.Cast(vote, VotingAt(m, who).delegations) == Some(TallyOf(Voted(m, who, r, vote), r))
  {
    var v := VotingAt(m, who);
    var w := v.(votes := v.votes[r := vote]);
    TallyShift(m, who, w, r);
    Transfer(TallyOf(m[who := w], r), TallyOf(m, r), t, Contribution(v, r), Contribution(w, r));
    assert Contribution(w, r) == Worth(vote, v.delegations);
    CastAddsWorth(t, vote, v.delegations);
  }

  lemma {:induction false} VotedKeeps(m: map<Account, Voting>, who: Account, r: RefIndex, vote: AccountVote, count: nat)
    requires VotingAt(m, who).Direct? && RecordsOk(m, count) && r < count && DelegationsExact(m)
    requires Funded(Voted(m, who, r, vote))
    ensures var n := Voted(m, who, r, vote);
            DelegationsExact(n) && RecordsOk(n, count) && TallyOf(n, r).Representable()
  {
    var v := VotingAt(m, who);
    DirectChangeKeepsDelegations(m, who, v.(votes := v.votes[r := vote]));
    VotedRecords(m, who, r, vote, count);
    TallyRepresentable(Voted(m, who, r, vote), r, count);
  }

  lemma {:induction false} VoteRecorded(c: Config, b: Book, who: Account, r: RefIndex, vote: AccountVote,
                                        totalBalance: nat,
                                        rest: Tally, t: Tally)
    requires IsOngoing(b.refs, r)
    requires vote.Balance() <= totalBalance && VotingAt(b.voting, who).Direct?
    requires r in VotingAt(b.voting, who).votes || |VotingAt(b.voting, who).votes| < c.maxVotes
    requires Cleared(b.refs[r].status.tally, VotingAt(b.voting, who), r) == Some(rest)
    requires rest.Cast(vote, VotingAt(b.voting, who).delegations) == Some(t)
    ensures TryVote(c, b, who, r, vote, totalBalance)
         == Ok(Book(Voted(b.voting, who, r, vote), b.refs[r := WithTally(b.refs[r], t)],
                    ExtendFreeze(b.frozen, who, vote.Balance())))
  {
  }

  /** A direct vote that the accounts as a whole can fund is accepted, and leaves exactly the
      recomputed tally. Neither arithmetic error of `try_vote` can occur. */
  lemma {:induction false} VoteAccepted(c: Config, b: Book, who: Account, r: RefIndex, vote: AccountVote,
                                        totalBalance: nat, count: nat)
    requires BookInv(b, count) && IsOngoing(b.refs, r)
    requires vote.Balance() <= totalBalance && VotingAt(b.voting, who).Direct?
    requires r in VotingAt(b.voting, who).votes || |VotingAt(b.voting, who).votes| < c.maxVotes
    requires Funded(Voted(b.voting, who, r, vote))
    ensures var n := Voted(b.voting, who, r, vote);
            TryVote(c, b, who, r, vote, totalBalance)
            == Ok(Book(n, b.refs[r := WithTally(b.refs[r], TallyOf(n, r))],
                       ExtendFreeze(b.frozen, who, vote.Balance())))
  {
    VotedKeeps(b.voting, who, r, vote, count);
    var rest := ClearedExact(b, who, r);
    CastExact(b.voting, who, r, vote, rest);
    VoteRecorded(c, b, who, r, vote, totalBalance, rest, TallyOf(Voted(b.voting, who, r, vote), r));
  }

  /** A vote that can be funded is accepted if and only if the referendum is ongoing, the balance is there,
      the account votes directly, and there is room for one more vote or it replaces one. */
  lemma {:induction false} VoteAcceptedIff(c: Config, b: Book, who: Account, r: RefIndex, vote: AccountVote,
                                           totalBalance: nat, count: nat)
    requires BookInv(b, count)
    requires VotingAt(b.voting, who).Direct? ==> Funded(Voted(b.voting, who, r, vote))
    ensures TryVote(c, b, who, r, vote, totalBalance).Ok? <==>
      && IsOngoing(b.refs, r) && vote.Balance() <= totalBalance && VotingAt(b.voting, who).Direct?
      && (r in VotingAt(b.voting, who).votes || |VotingAt(b.voting, who).votes| < c.maxVotes)
  {
    if TryVote(c, b, who, r, vote, totalBalance).Ok? {
      VoteShape(c, b, who, r, vote, totalBalance);
    } else if && IsOngoing(b.refs, r) && vote.Balance() <= totalBalance && VotingAt(b.voting, who).Direct?
              && (r in VotingAt(b.voting, who).votes || |VotingAt(b.voting, who).votes| < c.maxVotes) {
      VoteAccepted(c, b, who, r, vote, totalBalance, count);
    }
  }

  /** What an accepted vote does to a referendum it had not been cast on, with nothing behind it: its
      side gains its rank times its balance, or, unlocked, a tenth rounded down; the other side gains
      nothing and the turnout exactly the balance. */
  lemma {:induction false} VoteMovesByRank(c: Config, b: Book, who: Account, r: RefIndex, vote: AccountVote,
                                           totalBalance: nat)
    requires TryVote(c, b, who, r, vote, totalBalance).Ok? && vote.Standard?
    requires VotingAt(b.voting, who).delegations == NO_DELEGATIONS && r !in VotingAt(b.voting, who).votes
    ensures IsOngoing(b.refs, r) && IsOngoing(TryVote(c, b, who, r, vote, totalBalance).value.refs, r)
    ensures var t, t' := b.refs[r].status.tally, TryVote(c, b, who, r, vote, totalBalance).value.refs[r].status.tally;
            var side, side' := if vote.vote.aye then t.ayes else t.nays, if vote.vote.aye then t'.ayes else t'.nays;
            && (if vote.vote.aye then t'.nays == t.nays else t'.ayes == t.ayes)
            && t'.turnout == t.turnout + vote.balance
            && (var k := vote.vote.conviction.Rank();
                if k > 0 then side' == side + Min(k * vote.balance, MAX_BALANCE)
                else 10 * (side' - side) <= vote.balance < 10 * (side' - side) + 10)
  {
    var t := b.refs[r].status.tally;
    RanksCount(vote.vote.conviction);
    if !vote.vote.conviction.Unlocked? { VotesByRank(vote.vote.conviction, vote.balance); }
    VoteWrites(c, b, who, r, vote, totalBalance);
    CastAlone(t, vote);
  }

  lemma {:induction false} VoteWrites(c: Config, b: Book, who: Account, r: RefIndex, vote: AccountVote,
                                      totalBalance: nat)
    requires TryVote(c, b, who, r, vote, totalBalance).Ok? && r !in VotingAt(b.voting, who).votes
    ensures IsOngoing(b.refs, r)
    ensures var refs := TryVote(c, b, who, r, vote, totalBalance).value.refs;
            && IsOngoing(refs, r)
            && b.refs[r].status.tally.Cast(vote, VotingAt(b.voting, who).delegations) == Some(refs[r].status.tally)
  {
  }

  lemma {:induction false} CastAlone(t: Tally, v: AccountVote)
    requires v.Standard? && t.Cast(v, NO_DELEGATIONS).Some?
    ensures var t', votes := t.Cast(v, NO_DELEGATIONS).value, v.vote.conviction.Votes(v.balance).votes;
            t' == if v.vote.aye then Tally(t.ayes + votes, t.nays, t.turnout + v.balance)
                  else Tally(t.ayes, t.nays + votes, t.turnout + v.balance)
  {
  }

  /** No vote whatsoever, funded or not, accepted or refused, hits the underflow error. */
  lemma {:induction false} VoteNeverUnderflows(c: Config, b: Book, who: Account, r: RefIndex, vote: AccountVote,
                                               totalBalance: nat, count: nat)
    requires BookInv(b, count)
    ensures TryVote(c, b, who, r, vote, totalBalance) != Err(Underflow)
  {
    if TryVote(c, b, who, r, vote, totalBalance) == Err(Underflow) {
      UnderflowIsUncleared(c, b, who, r, vote, totalBalance);
      var _ := ClearedExact(b, who, r);
    }
  }

  lemma {:induction false} UnderflowIsUncleared(c: Config, b: Book, who: Account, r: RefIndex, vote: AccountVote,
                                                totalBalance: nat)
    requires TryVote(c, b, who, r, vote, totalBalance) == Err(Underflow)
    ensures IsOngoing(b.refs, r) && VotingAt(b.voting, who).Direct?
    ensures Cleared(b.refs[r].status.tally, VotingAt(b.voting, who), r) == None
  {
  }

  lemma {:induction false} OtherTalliesUnseen(m: map<Account, Voting>, who: Account, w: Voting, r: RefIndex)
    requires Contribution(w, r) == Contribution(VotingAt(m, who), r)
    ensures TallyOf(m[who := w], r) == TallyOf(m, r)
  {
    TallyShift(m, who, w, r);
    PlusCancels(TallyOf(m[who := w], r), TallyOf(m, r), Contribution(w, r));
  }

  lemma {:induction false} VoteKeepsTallies(b: Book, who: Account, r: RefIndex, vote: AccountVote)
    requires TalliesExact(b) && IsOngoing(b.refs, r) && VotingAt(b.voting, who).Direct?
    ensures var n := Voted(b.voting, who, r, vote);
            TalliesExact(b.(voting := n, refs := b.refs[r := WithTally(b.refs[r], TallyOf(n, r))]))
  {
    var v := VotingAt(b.voting, who);
    var n := Voted(b.voting, who, r, vote);
    var refs := b.refs[r := WithTally(b.refs[r], TallyOf(n, r))];
    forall q | IsOngoing(refs, q) ensures refs[q].status.tally == TallyOf(n, q) {
      if q != r {
        assert IsOngoing(b.refs, q);
        OtherTalliesUnseen(b.voting, who, v.(votes := v.votes[r := vote]), q);
      }
    }
  }

  lemma {:induction false} VoteKeepsInvariant(c: Config, b: Book, who: Account, r: RefIndex, vote: AccountVote,
                                              totalBalance: nat, count: nat)
    requires BookInv(b, count)
    requires TryVote(c, b, who, r, vote, totalBalance).Ok?
    requires Funded(TryVote(c, b, who, r, vote, totalBalance).value.voting)
    ensures BookInv(TryVote(c, b, who, r, vote, totalBalance).value, count)
  {
    VoteShape(c, b, who, r, vote, totalBalance);
    VoteAccepted(c, b, who, r, vote, totalBalance, count);
    VotedBookExact(b, who, r, vote, count);
  }

  lemma {:induction false} VoteShape(c: Config, b: Book, who: Account, r: RefIndex, vote: AccountVote,
                                     totalBalance: nat)
    requires TryVote(c, b, who, r, vote, totalBalance).Ok?
    ensures IsOngoing(b.refs, r) && vote.Balance() <= totalBalance && VotingAt(b.voting, who).Direct?
    ensures r in VotingAt(b.voting, who).votes || |VotingAt(b.voting, who).votes| < c.maxVotes
    ensures TryVote(c, b, who, r, vote, totalBalance).value.voting == Voted(b.voting, who, r, vote)
  {
  }

  lemma {:induction false} VotedBookExact(b: Book, who: Account, r: RefIndex, vote: AccountVote, count: nat)
    requires BookInv(b, count) && IsOngoing(b.refs, r) && VotingAt(b.voting, who).Direct?
    requires Funded(Voted(b.voting, who, r, vote))
    ensures var n := Voted(b.voting, who, r, vote);
            BookInv(Book(n, b.refs[r := WithTally(b.refs[r], TallyOf(n, r))],
                         ExtendFreeze(b.frozen, who, vote.Balance())), count)
  {
    VotedKeeps(b.voting, who, r, vote, count);
    VoteKeepsTallies(b, who, r, vote);
    VoteKeepsFreezes(b, who, r, vote);
  }

  lemma {:induction false} VotedLock(v: Voting, r: RefIndex, vote: AccountVote)
    requires v.Direct?
    ensures v.(votes := v.votes[r := vote]).LockedBalance() <= Max(v.LockedBalance(), vote.Balance())
  {
    var w := v.(votes := v.votes[r := vote]);
    forall q | q in w.Balances() ensures w.Balances()[q] <= Max(v.LockedBalance(), vote.Balance()) {
      if q != r { assert v.Balances()[q] == w.Balances()[q]; }
    }
  }

  lemma {:induction false} VoteKeepsFreezes(b: Book, who: Account, r: RefIndex, vote: AccountVote)
    requires VotingAt(b.voting, who).Direct? && FreezesCover(b)
    ensures FreezesCover(b.(voting := Voted(b.voting, who, r, vote),
                            frozen := ExtendFreeze(b.frozen, who, vote.Balance())))
  {
    VotedLock(VotingAt(b.voting, who), r, vote);
    assert VotingAt(b.voting, who).LockedBalance() <= At(b.frozen, who);
  }

  // ---------------------------------------------------------- removing a vote

  /** Removing a vote on an ongoing referendum never hits the underflow error. */
  lemma {:induction false} RemoveVoteNeverUnderflows(c: Config, b: Book, now: nat, who: Account, r: RefIndex,
                                                     ownScope: bool, count: nat)
    requires BookInv(b, count)
    ensures TryRemoveVote(c, b, now, who, r, ownScope) != Err(Underflow)
  {
    if IsOngoing(b.refs, r) && VotesOn(VotingAt(b.voting, who), r) {
      var _ := ClearedExact(b, who, r);
    }
  }

  /** A stored vote still counts or still locks: its referendum is ongoing, or it was won by the vote and
      the lock has not run out. */
  ghost predicate StillMatters(c: Config, b: Book, now: nat, who: Account, r: RefIndex) {
    var v := VotingAt(b.voting, who);
    && VotesOn(v, r) && r in b.refs
    && match b.refs[r]
       case Ongoing(_) => true
       case Finished(approved, end) =>
         && v.votes[r].Standard? && v.votes[r].vote.aye == approved
         && now < MAX_BLOCK && now < end + c.voteLockingPeriod * v.votes[r].vote.conviction.LockPeriods()
  }

  /** The owner of a vote can always remove it; someone else can if and only if it no longer counts and
      no longer locks. For a delegator there is nothing to remove. */
  lemma {:induction false} RemoveVoteAcceptedIff(c: Config, b: Book, now: nat, who: Account, r: RefIndex,
                                                 ownScope: bool, count: nat)
    requires BookInv(b, count)
    ensures TryRemoveVote(c, b, now, who, r, ownScope).Ok? <==>
      || VotingAt(b.voting, who).Delegating?
      || (VotesOn(VotingAt(b.voting, who), r) && (ownScope || !StillMatters(c, b, now, who, r)))
  {
    if VotesOn(VotingAt(b.voting, who), r) {
      RemoveVoteNeverUnderflows(c, b, now, who, r, ownScope, count);
      if r in b.refs && b.refs[r].Finished? && VotingAt(b.voting, who).votes[r].Standard? {
        UnlockBlockIs(c, b.refs[r].finishedAt, VotingAt(b.voting, who).votes[r].vote.conviction.LockPeriods());
      }
    }
  }

  /** The end of a lock in plain arithmetic. */
  lemma {:induction false} UnlockBlockIs(c: Config, from: nat, periods: nat)
    ensures var until := from + c.voteLockingPeriod * periods;
            UnlockBlock(c, from, periods) == if until < MAX_BLOCK then until else MAX_BLOCK
  {
  }

  lemma {:induction false} RemovalTally(b: Book, who: Account, r: RefIndex, w: Voting, q: RefIndex)
    requires TalliesExact(b) && VotesOn(VotingAt(b.voting, who), r) && IsOngoing(b.refs, q)
    requires w.Direct? && w.votes == VotingAt(b.voting, who).votes - {r}
    requires w.delegations == VotingAt(b.voting, who).delegations
    ensures q != r ==> TallyOf(b.voting[who := w], q) == TallyOf(b.voting, q)
    ensures q == r ==>
      Cleared(b.refs[q].status.tally, VotingAt(b.voting, who), r) == Some(TallyOf(b.voting[who := w], r))
  {
    var v := VotingAt(b.voting, who);
    if q != r {
      OtherTalliesUnseen(b.voting, who, w, q);
    } else {
      var rest := ClearedExact(b, who, r);
      TallyShift(b.voting, who, w, r);
      Transfer(TallyOf(b.voting[who := w], r), TallyOf(b.voting, r), rest, Contribution(v, r), EMPTY_TALLY);
      PlusEmpty(rest);
    }
  }

  /** What removing a vote does to storage: the vote goes, the prior lock grows within what was
      locked anyway, and only the tally of an ongoing referendum changes. */
  ghost predicate VoteRemoved(b: Book, b': Book, who: Account, r: RefIndex, w: Voting) {
    var v := VotingAt(b.voting, who);
    && VotesOn(v, r)
    && w.Direct? && w.votes == v.votes - {r} && w.delegations == v.delegations
    && w.prior.amount <= v.LockedBalance()
    && b'.voting == b.voting[who := w] && b'.frozen == b.frozen
    && (if IsOngoing(b.refs, r)
        then && Cleared(b.refs[r].status.tally, v, r).Some?
             && b'.refs == b.refs[r := WithTally(b.refs[r], Cleared(b.refs[r].status.tally, v, r).value)]
        else b'.refs == b.refs)
  }

  lemma {:induction false} RemoveVoteShape(c: Config, b: Book, now: nat, who: Account, r: RefIndex, ownScope: bool)
    requires TryRemoveVote(c, b, now, who, r, ownScope).Ok? && VotingAt(b.voting, who).Direct?
    ensures var b' := TryRemoveVote(c, b, now, who, r, ownScope).value;
            who in b'.voting && VoteRemoved(b, b', who, r, b'.voting[who])
  {
    var v := VotingAt(b.voting, who);
    assert v.Balances()[r] == v.votes[r].Balance();
  }

  lemma {:induction false} RemovalKeepsTallies(b: Book, b': Book, who: Account, r: RefIndex, w: Voting)
    requires TalliesExact(b) && VoteRemoved(b, b', who, r, w)
    ensures TalliesExact(b')
  {
    forall q | IsOngoing(b'.refs, q) ensures b'.refs[q].status.tally == TallyOf(b'.voting, q) {
      assert IsOngoing(b.refs, q);
      RemovalTally(b, who, r, w, q);
    }
  }

  lemma {:induction false} RemovalKeepsRecordAndFreeze(b: Book, b': Book, who: Account, r: RefIndex, w: Voting,
                                                       count: nat)
    requires BookInv(b, count) && VoteRemoved(b, b', who, r, w)
    ensures DelegationsExact(b'.voting) && RecordsOk(b'.voting, count) && FreezesCover(b')
  {
    var v := VotingAt(b.voting, who);
    DirectChangeKeepsDelegations(b.voting, who, w);
    RemovedLock(v, w, r);
    assert v.LockedBalance() <= At(b.frozen, who);
    assert RecordOk(who, v, count);
  }

  lemma {:induction false} RemovedLock(v: Voting, w: Voting, r: RefIndex)
    requires v.Direct? && w.Direct? && w.votes == v.votes - {r} && w.prior.amount <= v.LockedBalance()
    ensures w.LockedBalance() <= v.LockedBalance()
  {
    forall q | q in w.Balances() ensures w.Balances()[q] <= v.LockedBalance() {
      assert v.Balances()[q] == w.Balances()[q];
    }
  }

  lemma {:induction false} RemoveVoteKeepsInvariant(c: Config, b: Book, now: nat, who: Account, r: RefIndex,
                                                    ownScope: bool, count: nat)
    requires BookInv(b, count)
    requires TryRemoveVote(c, b, now, who, r, ownScope).Ok?
    ensures BookInv(TryRemoveVote(c, b, now, who, r, ownScope).value, count)
  {
    var b' := TryRemoveVote(c, b, now, who, r, ownScope).value;
    if VotingAt(b.voting, who).Direct? {
      RemoveVoteShape(c, b, now, who, r, ownScope);
      RemovalKeepsRecordAndFreeze(b, b', who, r, b'.voting[who], count);
      RemovalKeepsTallies(b, b', who, r, b'.voting[who]);
    }
  }

  // -------------------------------------------------------------- delegation

  lemma {:induction false} SumUpdateTwo(m: map<Account, Voting>, a: Account, v: Voting, d: Account, w: Voting,
                                        q: Measure)
    requires a != d
    ensures Sum(m[a := v][d := w], q) + Eval(q, VotingAt(m, a)) + Eval(q, VotingAt(m, d))
         == Sum(m, q) + Eval(q, v) + Eval(q, w)
  {
    SumUpdate(m, a, v, q);
    SumUpdate(m[a := v], d, w, q);
  }

  lemma {:induction false} TallyShiftTwo(m: map<Account, Voting>, a: Account, v: Voting, d: Account, w: Voting,
                                         r: RefIndex)
    requires a != d
    ensures TallyOf(m[a := v][d := w], r).Plus(Contribution(VotingAt(m, a), r)).Plus(Contribution(VotingAt(m, d), r))
         == TallyOf(m, r).Plus(Contribution(v, r)).Plus(Contribution(w, r))
  {
    TallyShift(m, a, v, r);
    TallyShift(m[a := v], d, w, r);
    assert VotingAt(m[a := v], d) == VotingAt(m, d);
    PlusChained(TallyOf(m[a := v][d := w], r), TallyOf(m[a := v], r), TallyOf(m, r),
                Contribution(VotingAt(m, a), r), Contribution(VotingAt(m, d), r),
                Contribution(v, r), Contribution(w, r));
  }

  lemma {:induction false} PlusChained(last: Tally, middle: Tally, first: Tally, x: Tally, y: Tally, x': Tally,
                                       y': Tally)
    requires last.Plus(y) == middle.Plus(y') && middle.Plus(x) == first.Plus(x')
    ensures last.Plus(x).Plus(y) == first.Plus(x').Plus(y')
  {
  }

  /** The part of the tally that delegations `amount` behind a vote account for. */
  ghost function SideOf(v: AccountVote, amount: Delegations): Tally {
    if v.Split? then EMPTY_TALLY
    else if v.vote.aye then Tally(amount.votes, 0, amount.capital)
    else Tally(0, amount.votes, amount.capital)
  }

  ghost function Sided(v: Voting, r: RefIndex, amount: Delegations): Tally {
    if VotesOn(v, r) then SideOf(v.votes[r], amount) else EMPTY_TALLY
  }

  lemma {:induction false} DelegatedRepresentable(m: map<Account, Voting>, a: Account)
    requires Funded(m)
    ensures DelegatedTo(m, a).votes <= MAX_BALANCE && DelegatedTo(m, a).capital <= MAX_BALANCE
  {
    DelegatedVotesBounded(m, a);
    TotalMonotone(Weights(m, CapitalFor(a)), Weights(m, Locked));
  }

  function PlusD(x: Delegations, y: Delegations): Delegations {
    Delegations(x.votes + y.votes, x.capital + y.capital)
  }

  /** Starting a delegation: `who`, with no votes, hands `amount` to `target`. */
  ghost function Entrusted(m: map<Account, Voting>, who: Account, target: Account, w: Voting,
                           amount: Delegations): map<Account, Voting> {
    var t := VotingAt(m, target);
    m[target := t.SetCommon(t.delegations.SaturatingAdd(amount), t.prior)][who := w]
  }

  /** Ending a delegation: `who` takes `amount` back from `target`. */
  ghost function Recalled(m: map<Account, Voting>, who: Account, target: Account, w: Voting,
                          amount: Delegations): map<Account, Voting> {
    var t := VotingAt(m, target);
    m[target := t.SetCommon(t.delegations.SaturatingSub(amount), t.prior)][who := w]
  }

  ghost predicate Starts(m: map<Account, Voting>, who: Account, w: Voting) {
    && VotingAt(m, who).Direct? && VotingAt(m, who).votes == map[]
    && w.Delegating? && w.target != who && w.delegations == VotingAt(m, who).delegations
  }

  ghost predicate Ends(m: map<Account, Voting>, who: Account, w: Voting) {
    && VotingAt(m, who).Delegating? && VotingAt(m, who).target != who
    && w.Direct? && w.votes == map[] && w.delegations == VotingAt(m, who).delegations
  }

  /** Whom an account delegates to does not depend on what it has received. */
  lemma {:induction false} CommonUnseen(v: Voting, d: Delegations, p: PriorLock, a: Account)
    ensures Eval(VotesFor(a), v.SetCommon(d, p)) == Eval(VotesFor(a), v)
    ensures Eval(CapitalFor(a), v.SetCommon(d, p)) == Eval(CapitalFor(a), v)
  {
  }

  lemma {:induction false} SumMoved(m: map<Account, Voting>, a: Account, v: Voting, d: Account, w: Voting, q: Measure)
    requires a != d && Eval(q, v) == Eval(q, VotingAt(m, a))
    ensures Sum(m[a := v][d := w], q) + Eval(q, VotingAt(m, d)) == Sum(m, q) + Eval(q, w)
  {
    SumUpdateTwo(m, a, v, d, w, q);
  }

  lemma {:induction false} DelegationsBalance(x: Delegations, y: Delegations, d: Delegations)
    requires x.votes == y.votes + d.votes && x.capital == y.capital + d.capital
    ensures x == PlusD(y, d)
  {
  }

  /** What the delegation `w` hands to account `a`. */
  ghost function Handed(w: Voting, a: Account): Delegations {
    if DelegatesTo(w, a) then w.conviction.Votes(w.balance) else NO_DELEGATIONS
  }

  lemma {:induction false} PlusNone(d: Delegations)
    ensures PlusD(d, NO_DELEGATIONS) == d
  {
  }

  lemma {:induction false} EntrustedAt(m: map<Account, Voting>, who: Account, w: Voting, a: Account)
    requires Starts(m, who, w)
    ensures DelegatedTo(Entrusted(m, who, w.target, w, w.conviction.Votes(w.balance)), a)
        == PlusD(DelegatedTo(m, a), Handed(w, a))
  {
    var n := Entrusted(m, who, w.target, w, w.conviction.Votes(w.balance));
    var t := VotingAt(m, w.target);
    CommonUnseen(t, t.delegations.SaturatingAdd(w.conviction.Votes(w.balance)), t.prior, a);
    SumMoved(m, w.target, n[w.target], who, w, VotesFor(a));
    SumMoved(m, w.target, n[w.target], who, w, CapitalFor(a));
    DelegationsBalance(DelegatedTo(n, a), DelegatedTo(m, a), Handed(w, a));
  }

  lemma {:induction false} AddExact(d: Delegations, amount: Delegations)
    requires PlusD(d, amount).votes <= MAX_BALANCE && PlusD(d, amount).capital <= MAX_BALANCE
    ensures d.SaturatingAdd(amount) == PlusD(d, amount)
  {
  }

  lemma {:induction false} SubExact(d: Delegations, amount: Delegations)
    ensures PlusD(d, amount).SaturatingSub(amount) == d
  {
  }

  /** Records other than those of the delegator and its target are not touched. */
  lemma {:induction false} ReceivedElsewhere(m: map<Account, Voting>, target: Account, t: Voting, who: Account,
                                             w: Voting, a: Account)
    requires w.delegations == VotingAt(m, who).delegations && a != target
    ensures VotingAt(m[target := t][who := w], a).delegations == VotingAt(m, a).delegations
  {
  }

  lemma {:induction false} EntrustedElsewhere(m: map<Account, Voting>, who: Account, w: Voting, a: Account)
    requires Starts(m, who, w) && a != w.target
    ensures var n := Entrusted(m, who, w.target, w, w.conviction.Votes(w.balance));
            DelegatedTo(n, a) == DelegatedTo(m, a)
  {
    EntrustedAt(m, who, w, a);
    assert Handed(w, a) == NO_DELEGATIONS;
    PlusNone(DelegatedTo(m, a));
  }

  lemma {:induction false} EntrustedTarget(m: map<Account, Voting>, who: Account, w: Voting)
    requires DelegationsExact(m) && Starts(m, who, w)
    requires Funded(Entrusted(m, who, w.target, w, w.conviction.Votes(w.balance)))
    ensures var n := Entrusted(m, who, w.target, w, w.conviction.Votes(w.balance));
            n[w.target].delegations == DelegatedTo(n, w.target)
              == PlusD(VotingAt(m, w.target).delegations, w.conviction.Votes(w.balance))
  {
    var n := Entrusted(m, who, w.target, w, w.conviction.Votes(w.balance));
    EntrustedAt(m, who, w, w.target);
    assert VotingAt(m, w.target).delegations == DelegatedTo(m, w.target);
    DelegatedRepresentable(n, w.target);
    AddExact(VotingAt(m, w.target).delegations, w.conviction.Votes(w.balance));
  }

  /** Starting a delegation keeps every account's cached delegations exact, without saturating. */
  lemma {:induction false} EntrustedDelegations(m: map<Account, Voting>, who: Account, w: Voting)
    requires DelegationsExact(m) && Starts(m, who, w)
    requires Funded(Entrusted(m, who, w.target, w, w.conviction.Votes(w.balance)))
    ensures var n := Entrusted(m, who, w.target, w, w.conviction.Votes(w.balance));
            && DelegationsExact(n)
            && n[w.target].delegations == PlusD(VotingAt(m, w.target).delegations, w.conviction.Votes(w.balance))
  {
    var n := Entrusted(m, who, w.target, w, w.conviction.Votes(w.balance));
    forall a ensures VotingAt(n, a).delegations == DelegatedTo(n, a) {
      assert VotingAt(m, a).delegations == DelegatedTo(m, a);
      if a != w.target {
        EntrustedElsewhere(m, who, w, a);
        ReceivedElsewhere(m, w.target, n[w.target], who, w, a);
      } else { EntrustedTarget(m, who, w); }
    }
    EntrustedTarget(m, who, w);
  }

  lemma {:induction false} RecalledAt(m: map<Account, Voting>, who: Account, w: Voting, a: Account)
    requires Ends(m, who, w)
    ensures var v := VotingAt(m, who);
            var n := Recalled(m, who, v.target, w, v.conviction.Votes(v.balance));
            DelegatedTo(m, a) == PlusD(DelegatedTo(n, a), Handed(v, a))
  {
    var v := VotingAt(m, who);
    var n := Recalled(m, who, v.target, w, v.conviction.Votes(v.balance));
    var t := VotingAt(m, v.target);
    CommonUnseen(t, t.delegations.SaturatingSub(v.conviction.Votes(v.balance)), t.prior, a);
    SumMoved(m, v.target, n[v.target], who, w, VotesFor(a));
    SumMoved(m, v.target, n[v.target], who, w, CapitalFor(a));
    DelegationsBalance(DelegatedTo(m, a), DelegatedTo(n, a), Handed(v, a));
  }

  lemma {:induction false} RecalledElsewhere(m: map<Account, Voting>, who: Account, w: Voting, a: Account)
    requires Ends(m, who, w) && a != VotingAt(m, who).target
    ensures var v := VotingAt(m, who);
            var n := Recalled(m, who, v.target, w, v.conviction.Votes(v.balance));
            DelegatedTo(n, a) == DelegatedTo(m, a)
  {
    var v := VotingAt(m, who);
    RecalledAt(m, who, w, a);
    assert Handed(v, a) == NO_DELEGATIONS;
    PlusNone(DelegatedTo(Recalled(m, who, v.target, w, v.conviction.Votes(v.balance)), a));
  }

  lemma {:induction false} RecalledTarget(m: map<Account, Voting>, who: Account, w: Voting)
    requires DelegationsExact(m) && Ends(m, who, w)
    ensures var v := VotingAt(m, who);
            var amount := v.conviction.Votes(v.balance);
            var n := Recalled(m, who, v.target, w, amount);
            && n[v.target].delegations == DelegatedTo(n, v.target)
            && VotingAt(m, v.target).delegations == PlusD(n[v.target].delegations, amount)
  {
    var v := VotingAt(m, who);
    var amount := v.conviction.Votes(v.balance);
    var n := Recalled(m, who, v.target, w, amount);
    RecalledAt(m, who, w, v.target);
    assert VotingAt(m, v.target).delegations == DelegatedTo(m, v.target);
    SubExact(DelegatedTo(n, v.target), amount);
  }

  /** Ending a delegation keeps every account's cached delegations exact, and nothing clamps. */
  lemma {:induction false} RecalledDelegations(m: map<Account, Voting>, who: Account, w: Voting)
    requires DelegationsExact(m) && Ends(m, who, w)
    ensures var v := VotingAt(m, who);
            var amount := v.conviction.Votes(v.balance);
            var n := Recalled(m, who, v.target, w, amount);
            && DelegationsExact(n)
            && VotingAt(m, v.target).delegations == PlusD(n[v.target].delegations, amount)
  {
    var v := VotingAt(m, who);
    var n := Recalled(m, who, v.target, w, v.conviction.Votes(v.balance));
    forall a ensures VotingAt(n, a).delegations == DelegatedTo(n, a) {
      assert VotingAt(m, a).delegations == DelegatedTo(m, a);
      if a != v.target {
        RecalledElsewhere(m, who, w, a);
        ReceivedElsewhere(m, v.target, n[v.target], who, w, a);
      } else { RecalledTarget(m, who, w); }
    }
    RecalledTarget(m, who, w);
  }

  lemma {:induction false} WorthPlus(v: AccountVote, d: Delegations, amount: Delegations)
    ensures Worth(v, PlusD(d, amount)) == Worth(v, d).Plus(SideOf(v, amount))
  {
  }

  lemma {:induction false} MovedTally(larger: Tally, smaller: Tally, part: Tally, whole: Tally, side: Tally)
    requires larger.Plus(part).Plus(EMPTY_TALLY) == smaller.Plus(whole).Plus(EMPTY_TALLY)
    requires whole == part.Plus(side)
    ensures larger == smaller.Plus(side)
  {
  }

  /** Two records change, one of them not voting on `r`: the tally moves by what the other one gains. */
  lemma {:induction false} TallyGains(m: map<Account, Voting>, a: Account, v: Voting, d: Account, w: Voting,
                                      r: RefIndex, side: Tally)
    requires a != d && Contribution(VotingAt(m, d), r) == EMPTY_TALLY && Contribution(w, r) == EMPTY_TALLY
    requires Contribution(v, r) == Contribution(VotingAt(m, a), r).Plus(side)
    ensures TallyOf(m[a := v][d := w], r) == TallyOf(m, r).Plus(side)
  {
    TallyShiftTwo(m, a, v, d, w, r);
    MovedTally(TallyOf(m[a := v][d := w], r), TallyOf(m, r), Contribution(VotingAt(m, a), r), Contribution(v, r), side);
  }

  lemma {:induction false} TallyLoses(m: map<Account, Voting>, a: Account, v: Voting, d: Account, w: Voting,
                                      r: RefIndex, side: Tally)
    requires a != d && Contribution(VotingAt(m, d), r) == EMPTY_TALLY && Contribution(w, r) == EMPTY_TALLY
    requires Contribution(VotingAt(m, a), r) == Contribution(v, r).Plus(side)
    ensures TallyOf(m, r) == TallyOf(m[a := v][d := w], r).Plus(side)
  {
    TallyShiftTwo(m, a, v, d, w, r);
    MovedTally(TallyOf(m, r), TallyOf(m[a := v][d := w], r), Contribution(v, r), Contribution(VotingAt(m, a), r), side);
  }

  lemma {:induction false} SidedGain(t: Voting, d: Delegations, amount: Delegations, r: RefIndex)
    requires d == PlusD(t.delegations, amount)
    ensures Contribution(t.SetCommon(d, t.prior), r) == Contribution(t, r).Plus(Sided(t, r, amount))
  {
    if VotesOn(t, r) {
      WorthPlus(t.votes[r], t.delegations, amount);
      assert t.SetCommon(d, t.prior) == Direct(t.votes, d, t.prior);
    } else {
      assert Contribution(t.SetCommon(d, t.prior), r) == EMPTY_TALLY;
      PlusEmpty(EMPTY_TALLY);
    }
  }

  lemma {:induction false} SidedLoss(t: Voting, d: Delegations, amount: Delegations, r: RefIndex)
    requires t.delegations == PlusD(d, amount)
    ensures Contribution(t, r) == Contribution(t.SetCommon(d, t.prior), r).Plus(Sided(t, r, amount))
  {
    if VotesOn(t, r) {
      WorthPlus(t.votes[r], d, amount);
      assert t.SetCommon(d, t.prior) == Direct(t.votes, d, t.prior);
    } else {
      assert Contribution(t.SetCommon(d, t.prior), r) == EMPTY_TALLY;
      PlusEmpty(EMPTY_TALLY);
    }
  }

  lemma {:induction false} NoContribution(v: Voting, r: RefIndex)
    requires v.Delegating? || v.votes == map[]
    ensures Contribution(v, r) == EMPTY_TALLY
  {
  }

  /** Starting a delegation adds exactly its side to the tally. */
  lemma {:induction false} EntrustedTally(m: map<Account, Voting>, who: Account, w: Voting, r: RefIndex)
    requires DelegationsExact(m) && Starts(m, who, w)
    requires Funded(Entrusted(m, who, w.target, w, w.conviction.Votes(w.balance)))
    ensures TallyOf(Entrusted(m, who, w.target, w, w.conviction.Votes(w.balance)), r)
         == TallyOf(m, r).Plus(Sided(VotingAt(m, w.target), r, w.conviction.Votes(w.balance)))
  {
    var t, amount := VotingAt(m, w.target), w.conviction.Votes(w.balance);
    var d := t.delegations.SaturatingAdd(amount);
    assert d == PlusD(t.delegations, amount) by { EntrustedTarget(m, who, w); }
    SidedGain(t, d, amount, r);
    NoContribution(w, r);
    NoContribution(VotingAt(m, who), r);
    TallyGains(m, w.target, t.SetCommon(d, t.prior), who, w, r, Sided(t, r, amount));
  }

  /** Ending a delegation takes exactly its side out of the tally. */
  lemma {:induction false} RecalledTally(m: map<Account, Voting>, who: Account, w: Voting, r: RefIndex)
    requires DelegationsExact(m) && Ends(m, who, w)
    ensures var v := VotingAt(m, who);
            var amount := v.conviction.Votes(v.balance);
            var n := Recalled(m, who, v.target, w, amount);
            TallyOf(m, r) == TallyOf(n, r).Plus(Sided(VotingAt(m, v.target), r, amount))
  {
    var v := VotingAt(m, who);
    var t, amount := VotingAt(m, v.target), v.conviction.Votes(v.balance);
    var d := t.delegations.SaturatingSub(amount);
    assert t.delegations == PlusD(d, amount) by { RecalledTarget(m, who, w); }
    SidedLoss(t, d, amount, r);
    NoContribution(w, r);
    NoContribution(v, r);
    TallyLoses(m, v.target, t.SetCommon(d, t.prior), who, w, r, Sided(t, r, amount));
  }

  lemma {:induction false} IncreaseAddsSide(t: Tally, v: AccountVote, amount: Delegations)
    requires v.Standard? && t.Plus(SideOf(v, amount)).Representable()
    ensures t.Increase(v.vote.aye, amount) == t.Plus(SideOf(v, amount))
  {
  }

  lemma {:induction false} ReduceTakesSide(t: Tally, v: AccountVote, amount: Delegations)
    requires v.Standard?
    ensures t.Plus(SideOf(v, amount)).Reduce(v.vote.aye, amount) == t
  {
  }

  // --------------------------------------------------- delegation, whole steps

  /** `IncreaseUpstream` followed by writing the delegator's record. */
  ghost function Entrust(b: Book, who: Account, w: Voting): Book
    requires w.Delegating?
  {
    var up := IncreaseUpstream(b, w.target, w.conviction.Votes(w.balance));
    up.(voting := up.voting[who := w], frozen := ExtendFreeze(up.frozen, who, w.balance))
  }

  /** `ReduceUpstream` followed by writing the delegator's record. */
  ghost function Recall(b: Book, who: Account, w: Voting): Book
    requires VotingAt(b.voting, who).Delegating?
  {
    var v := VotingAt(b.voting, who);
    var up := ReduceUpstream(b, v.target, v.conviction.Votes(v.balance));
    up.(voting := up.voting[who := w])
  }

  lemma {:induction false} EntrustedRecords(m: map<Account, Voting>, who: Account, w: Voting, count: nat)
    requires RecordsOk(m, count) && Starts(m, who, w)
    ensures RecordsOk(Entrusted(m, who, w.target, w, w.conviction.Votes(w.balance)), count)
  {
  }

  lemma {:induction false} EntrustKeepsTallyAt(b: Book, who: Account, w: Voting, r: RefIndex, count: nat)
    requires TalliesExact(b) && DelegationsExact(b.voting) && RecordsOk(b.voting, count) && Starts(b.voting, who, w)
    requires Funded(Entrust(b, who, w).voting) && IsOngoing(b.refs, r)
    ensures IsOngoing(Entrust(b, who, w).refs, r)
    ensures Entrust(b, who, w).refs[r].status.tally == TallyOf(Entrust(b, who, w).voting, r)
  {
    var amount := w.conviction.Votes(w.balance);
    var t := VotingAt(b.voting, w.target);
    var n := Entrusted(b.voting, who, w.target, w, amount);
    assert Entrust(b, who, w).voting == n;
    EntrustedTally(b.voting, who, w, r);
    EntrustedDelegations(b.voting, who, w);
    EntrustedRecords(b.voting, who, w, count);
    TallyRepresentable(n, r, count);
    if VotesOn(t, r) && t.votes[r].Standard? {
      IncreaseAddsSide(TallyOf(b.voting, r), t.votes[r], amount);
    } else {
      PlusEmpty(TallyOf(b.voting, r));
    }
  }

  lemma {:induction false} EntrustKeepsFreezes(b: Book, who: Account, w: Voting)
    requires FreezesCover(b) && Starts(b.voting, who, w)
    requires w.prior.amount <= At(b.frozen, who)
    ensures FreezesCover(Entrust(b, who, w))
  {
  }

  lemma {:induction false} EntrustKeepsInvariant(b: Book, who: Account, w: Voting, count: nat)
    requires BookInv(b, count) && Starts(b.voting, who, w)
    requires w.prior.amount <= At(b.frozen, who)
    requires Funded(Entrust(b, who, w).voting)
    ensures BookInv(Entrust(b, who, w), count)
  {
    var b' := Entrust(b, who, w);
    EntrustedDelegations(b.voting, who, w);
    EntrustedRecords(b.voting, who, w, count);
    EntrustKeepsFreezes(b, who, w);
    forall r | IsOngoing(b'.refs, r) ensures b'.refs[r].status.tally == TallyOf(b'.voting, r) {
      assert IsOngoing(b.refs, r);
      EntrustKeepsTallyAt(b, who, w, r, count);
    }
  }

  lemma {:induction false} RecallKeepsTallyAt(b: Book, who: Account, w: Voting, r: RefIndex)
    requires TalliesExact(b) && DelegationsExact(b.voting) && Ends(b.voting, who, w)
    requires IsOngoing(b.refs, r)
    ensures IsOngoing(Recall(b, who, w).refs, r)
    ensures Recall(b, who, w).refs[r].status.tally == TallyOf(Recall(b, who, w).voting, r)
  {
    var v := VotingAt(b.voting, who);
    var amount := v.conviction.Votes(v.balance);
    var t := VotingAt(b.voting, v.target);
    var n := Recalled(b.voting, who, v.target, w, amount);
    assert Recall(b, who, w).voting == n;
    RecalledTally(b.voting, who, w, r);
    if VotesOn(t, r) && t.votes[r].Standard? {
      ReduceTakesSide(TallyOf(n, r), t.votes[r], amount);
    } else {
      PlusEmpty(TallyOf(n, r));
    }
  }

  lemma {:induction false} RecallKeepsRecordsAndFreezes(b: Book, who: Account, w: Voting, count: nat)
    requires RecordsOk(b.voting, count) && FreezesCover(b) && Ends(b.voting, who, w)
    requires w.prior.amount <= At(b.frozen, who)
    ensures RecordsOk(Recall(b, who, w).voting, count) && FreezesCover(Recall(b, who, w))
  {
  }

  lemma {:induction false} RecallKeepsInvariant(b: Book, who: Account, w: Voting, count: nat)
    requires BookInv(b, count) && Ends(b.voting, who, w)
    requires w.prior.amount <= At(b.frozen, who)
    ensures BookInv(Recall(b, who, w), count)
  {
    var b' := Recall(b, who, w);
    RecalledDelegations(b.voting, who, w);
    RecallKeepsRecordsAndFreezes(b, who, w, count);
    forall r | IsOngoing(b'.refs, r) ensures b'.refs[r].status.tally == TallyOf(b'.voting, r) {
      assert IsOngoing(b.refs, r);
      RecallKeepsTallyAt(b, who, w, r);
    }
  }

  lemma {:induction false} UndelegateKeepsInvariant(c: Config, b: Book, now: nat, who: Account, count: nat)
    requires BookInv(b, count) && TryUndelegate(c, b, now, who).Ok?
    ensures BookInv(TryUndelegate(c, b, now, who).value, count)
  {
    var v := VotingAt(b.voting, who);
    assert RecordOk(who, v, count);
    RecallKeepsInvariant(b, who, Direct(map[], v.delegations, PriorAfterDelegation(c, now, v)), count);
  }

  /** Re-delegating is undelegating and then delegating afresh: the two upstream updates may be
      interleaved with the write of the delegator's own record because nobody delegates to itself. */
  lemma {:induction false} RedelegateSplits(c: Config, b: Book, now: nat, who: Account, target: Account,
                                            conviction: Conviction, balance: nat, totalBalance: nat)
    requires VotingAt(b.voting, who).Delegating? && VotingAt(b.voting, who).target != who
    requires who != target && balance <= totalBalance
    ensures TryUndelegate(c, b, now, who).Ok?
    ensures TryDelegate(c, b, now, who, target, conviction, balance, totalBalance)
         == TryDelegate(c, TryUndelegate(c, b, now, who).value, now, who, target, conviction, balance, totalBalance)
  {
    var v := VotingAt(b.voting, who);
    var freed := ReduceUpstream(b, v.target, v.conviction.Votes(v.balance));
    var prior := PriorAfterDelegation(c, now, v);
    UpstreamCommutes(freed, who, Direct(map[], v.delegations, prior), target, conviction.Votes(balance),
                     Delegating(balance, target, conviction, v.delegations, prior));
  }

  /** Writing the delegator's record before the upstream update makes no difference, since it is
      overwritten and is not the record being updated. */
  lemma {:induction false} UpstreamCommutes(b: Book, who: Account, v: Voting, target: Account, amount: Delegations,
                                            w: Voting)
    requires who != target
    ensures var x := IncreaseUpstream(b, target, amount);
            var y := IncreaseUpstream(b.(voting := b.voting[who := v]), target, amount);
            x.(voting := x.voting[who := w]) == y.(voting := y.voting[who := w])
  {
  }

  lemma {:induction false} DelegateKeepsInvariant(c: Config, b: Book, now: nat, who: Account, target: Account,
                                                  conviction: Conviction, balance: nat, totalBalance: nat, count: nat)
    requires BookInv(b, count)
    requires TryDelegate(c, b, now, who, target, conviction, balance, totalBalance).Ok?
    requires Funded(TryDelegate(c, b, now, who, target, conviction, balance, totalBalance).value.voting)
    ensures BookInv(TryDelegate(c, b, now, who, target, conviction, balance, totalBalance).value, count)
  {
    var v := VotingAt(b.voting, who);
    if v.Direct? {
      FirstDelegationKeepsInvariant(c, b, now, who, target, conviction, balance, totalBalance, count);
    } else {
      assert RecordOk(who, v, count);
      RedelegateSplits(c, b, now, who, target, conviction, balance, totalBalance);
      UndelegateKeepsInvariant(c, b, now, who, count);
      var b' := TryUndelegate(c, b, now, who).value;
      FirstDelegationKeepsInvariant(c, b', now, who, target, conviction, balance, totalBalance, count);
    }
  }

  /** Delegating is refused exactly to oneself, beyond the balance, or with votes standing. */
  lemma {:induction false} DelegateAcceptedIff(c: Config, b: Book, now: nat, who: Account, target: Account,
                                               conviction: Conviction, balance: nat, totalBalance: nat)
    ensures TryDelegate(c, b, now, who, target, conviction, balance, totalBalance).Ok? <==>
      && who != target && balance <= totalBalance
      && (VotingAt(b.voting, who).Delegating? || VotingAt(b.voting, who).votes == map[])
  {
  }

  lemma {:induction false} FirstDelegationKeepsInvariant(c: Config, b: Book, now: nat, who: Account, target: Account,
                                                         conviction: Conviction, balance: nat,
                                                         totalBalance: nat, count: nat)
    requires BookInv(b, count) && VotingAt(b.voting, who).Direct?
    requires TryDelegate(c, b, now, who, target, conviction, balance, totalBalance).Ok?
    requires Funded(TryDelegate(c, b, now, who, target, conviction, balance, totalBalance).value.voting)
    ensures BookInv(TryDelegate(c, b, now, who, target, conviction, balance, totalBalance).value, count)
  {
    var v := VotingAt(b.voting, who);
    assert RecordOk(who, v, count);
    EntrustKeepsInvariant(b, who, Delegating(balance, target, conviction, v.delegations, v.prior), count);
  }

  /** `unlock` never makes a lock stricter, and afterwards freezes exactly what is needed. */
  lemma {:induction false} UnlockKeepsInvariant(b: Book, now: nat, who: Account, count: nat)
    requires BookInv(b, count)
    ensures BookInv(UpdateLock(b, now, who), count)
    ensures At(UpdateLock(b, now, who).frozen, who) <= At(b.frozen, who)
    ensures At(UpdateLock(b, now, who).frozen, who) == VotingAt(b.voting, who).Rejig(now).LockedBalance()
  {
    var v := VotingAt(b.voting, who);
    assert v.LockedBalance() <= At(b.frozen, who);
    assert RecordOk(who, v, count);
    RejigKeepsCaches(b, now, who);
  }

  /** Dropping an expired lock changes no delegation and no tally. */
  lemma {:induction false} RejigKeepsCaches(b: Book, now: nat, who: Account)
    requires DelegationsExact(b.voting) && TalliesExact(b)
    ensures DelegationsExact(UpdateLock(b, now, who).voting) && TalliesExact(UpdateLock(b, now, who))
  {
    var b' := UpdateLock(b, now, who);
    var v := VotingAt(b.voting, who);
    var w := v.Rejig(now);
    forall a ensures VotingAt(b'.voting, a).delegations == DelegatedTo(b'.voting, a) {
      CommonUnseen(v, v.delegations, v.prior.Rejig(now), a);
      SumUnseen(b.voting, who, w, VotesFor(a));
      SumUnseen(b.voting, who, w, CapitalFor(a));
      assert VotingAt(b.voting, a).delegations == DelegatedTo(b.voting, a);
    }
    forall r | IsOngoing(b'.refs, r) ensures b'.refs[r].status.tally == TallyOf(b'.voting, r) {
      OtherTalliesUnseen(b.voting, who, w, r);
    }
  }
}
