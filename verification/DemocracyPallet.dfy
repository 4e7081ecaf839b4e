/** The democracy pallet in its own form: storage items changed in place, loops over votes, depositors
    and referenda. Every method is proved to perform exactly the corresponding step. */
module DemocracyPallet {
  import opened Totals
  import opened DemocracyTypes
  import opened VotingRecords
  import V = DemocracyVoting
  import T = VoteThreshold
  import Q = DemocracyQueue
  import D = Democracy

  datatype Outcome = Done | Failed(error: V.Error)

  lemma {:induction false} IncreaseOneMore(refs: map<RefIndex, ReferendumInfo>, m: map<RefIndex, AccountVote>,
                                           r: RefIndex, v: AccountVote, amount: Delegations)
    requires r !in m
    ensures var before := V.IncreaseTallies(refs, m, amount);
            && (r in before <==> r in refs) && (r in refs ==> before[r] == refs[r])
            && V.IncreaseTallies(refs, m[r := v], amount)
               == if V.IsOngoing(refs, r) && v.Standard?
                  then before[r := V.WithTally(refs[r], refs[r].status.tally.Increase(v.vote.aye, amount))]
                  else before
  {
  }

  lemma {:induction false} ReduceOneMore(refs: map<RefIndex, ReferendumInfo>, m: map<RefIndex, AccountVote>,
                                         r: RefIndex, v: AccountVote, amount: Delegations)
    requires r !in m
    ensures var before := V.ReduceTallies(refs, m, amount);
            && (r in before <==> r in refs) && (r in refs ==> before[r] == refs[r])
            && V.ReduceTallies(refs, m[r := v], amount)
               == if V.IsOngoing(refs, r) && v.Standard?
                  then before[r := V.WithTally(refs[r], refs[r].status.tally.Reduce(v.vote.aye, amount))]
                  else before
  {
  }

  /** Extending a prefix of the vector by one vote adds one key to the map. */
  lemma {:induction false} PrefixGrows(s: VoteVec, i: nat)
    requires Sorted(s) && i < |s|
    ensures s[i].0 !in AsMap(s[..i])
    ensures AsMap(s[..i + 1]) == AsMap(s[..i])[s[i].0 := s[i].1]
  {
    assert s[..i + 1][..i] == s[..i];
    NotInMap(s[..i], s[i].0, i);
  }

  class Pallet {
    const config: D.Settings
    var votingOf: map<Account, Record>
    var referendumInfoOf: map<RefIndex, ReferendumInfo>
    var frozen: map<Account, nat>
    var referendumCount: nat
    var lowestUnbaked: nat
    var now: nat
    var publicProps: seq<Q.PublicProp>
    var publicPropCount: nat
    var depositOf: map<PropIndex, Q.Deposit>
    var held: map<Account, nat>
    var blacklist: map<Proposal, nat>
    var nextExternal: Option<(Proposal, Threshold)>
    var lastTabledWasExternal: bool

    constructor (c: D.Settings)
      ensures Valid() && View() == D.GENESIS && config == c
    {
      config := c;
      votingOf, referendumInfoOf, frozen := map[], map[], map[];
      referendumCount, lowestUnbaked, now := 0, 0, 0;
      publicProps, publicPropCount, depositOf, held, blacklist := [], 0, map[], map[], map[];
      nextExternal, lastTabledWasExternal := None, false;
    }

    /** The vote vectors are sorted, so that bisection finds every vote. */
    ghost predicate Valid()
      reads this
    {
      forall a :: a in votingOf ==> RecordSorted(votingOf[a])
    }

    ghost function BookView(): V.Book
      reads this
    {
      V.Book(AbstractAll(votingOf), referendumInfoOf, frozen)
    }

    ghost function QueueView(): Q.Queue
      reads this
    {
      Q.Queue(publicProps, publicPropCount, depositOf, held, blacklist, nextExternal, lastTabledWasExternal)
    }

    ghost function View(): D.State
      reads this
    {
      D.State(BookView(), referendumCount, lowestUnbaked, now, QueueView())
    }

    // ------------------------------------------------------------- voting

    method WriteVoting(who: Account, v: Record)
      requires Valid() && RecordSorted(v)
      modifies this`votingOf
      ensures Valid()
      ensures BookView() == old(BookView()).(voting := old(BookView()).voting[who := Abstract(v)])
      ensures votingOf == old(votingOf)[who := v]
    {
      AbstractUpdate(votingOf, who, v);
      votingOf := votingOf[who := v];
    }

    method ExtendFreeze(who: Account, amount: nat)
      modifies this`frozen
      ensures frozen == V.ExtendFreeze(old(frozen), who, amount)
    {
      frozen := frozen[who := Max(At(frozen, who), amount)];
    }

    method TryVote(who: Account, r: RefIndex, vote: AccountVote, totalBalance: nat) returns (res: Outcome)
      requires Valid()
      modifies this`votingOf, this`referendumInfoOf, this`frozen
      ensures Valid()
      ensures match V.TryVote(config.voting, old(BookView()), who, r, vote, totalBalance)
              case Ok(b) => res == Done && BookView() == b
              case Err(e) => res == Failed(e) && BookView() == old(BookView())
    {
      AbstractAt(votingOf, who);
      if r !in referendumInfoOf || !referendumInfoOf[r].Ongoing? { return Failed(V.ReferendumInvalid); }
      if vote.Balance() > totalBalance { return Failed(V.InsufficientFunds); }
      var info := referendumInfoOf[r];
      var v := RecordAt(votingOf, who);
      if v.DelegatingRecord? { return Failed(V.AlreadyDelegating); }
      var replaced, votes := PlaceVote(v.votes, r, vote);
      var tally := info.status.tally;
      if replaced.Some? {
        var t := tally.Uncast(replaced.value, v.delegations);
        if t.None? { return Failed(V.Underflow); }
        tally := t.value;
      } else {
        if |v.votes| >= config.voting.maxVotes { return Failed(V.MaxVotesReached); }
      }
      var t := tally.Cast(vote, v.delegations);
      if t.None? { return Failed(V.Overflow); }
      WriteVoting(who, DirectRecord(votes, v.delegations, v.prior));
      ExtendFreeze(who, vote.Balance());
      referendumInfoOf := referendumInfoOf[r := V.WithTally(info, t.value)];
      res := Done;
    }

    method TryRemoveVote(who: Account, r: RefIndex, ownScope: bool) returns (res: Outcome)
      requires Valid()
      modifies this`votingOf, this`referendumInfoOf
      ensures Valid()
      ensures match V.TryRemoveVote(config.voting, old(BookView()), now, who, r, ownScope)
              case Ok(b) => res == Done && BookView() == b
              case Err(e) => res == Failed(e) && BookView() == old(BookView())
    {
      AbstractAt(votingOf, who);
      var v := RecordAt(votingOf, who);
      if v.DelegatingRecord? { return Done; }
      var found, i := BinarySearch(v.votes, r);
      if !found {
        NotInMap(v.votes, r, i);
        return Failed(V.NotVoter);
      }
      ValueOf(v.votes, i);
      RemoveSorted(v.votes, i);
      RemoveIsDelete(v.votes, i, r);
      var prior := v.prior;
      if r in referendumInfoOf {
        match referendumInfoOf[r] {
          case Ongoing(status) =>
            if !ownScope { return Failed(V.NoPermission); }
            var t := status.tally.Uncast(v.votes[i].1, v.delegations);
            if t.None? { return Failed(V.Underflow); }
            referendumInfoOf := referendumInfoOf[r := V.WithTally(referendumInfoOf[r], t.value)];
          case Finished(approved, end) =>
            var lock := v.votes[i].1.LockedIf(approved);
            if lock.Some? {
              var unlockAt := V.UnlockBlock(config.voting, end, lock.value.0);
              if now < unlockAt {
                if !ownScope { return Failed(V.NoPermission); }
                prior := prior.Accumulate(unlockAt, lock.value.1);
              }
            }
        }
      }
      WriteVoting(who, DirectRecord(RemoveAt(v.votes, i), v.delegations, prior));
      res := Done;
    }

    method IncreaseUpstreamDelegation(who: Account, amount: Delegations) returns (votes: nat)
      requires Valid()
      modifies this`votingOf, this`referendumInfoOf
      ensures Valid()
      ensures BookView() == V.IncreaseUpstream(old(BookView()), who, amount)
    {
      AbstractAt(votingOf, who);
      var v := RecordAt(votingOf, who);
      match v
      case DelegatingRecord(balance, target, conviction, delegations, prior) =>
        WriteVoting(who, DelegatingRecord(balance, target, conviction, delegations.SaturatingAdd(amount), prior));
        votes := 1;
      case DirectRecord(vec, delegations, prior) =>
        ghost var before := referendumInfoOf;
        for i := 0 to |vec|
          invariant votingOf == old(votingOf)
          invariant referendumInfoOf == V.IncreaseTallies(before, AsMap(vec[..i]), amount)
        {
          var (r, vote) := vec[i];
          PrefixGrows(vec, i);
          IncreaseOneMore(before, AsMap(vec[..i]), r, vote, amount);
          if vote.Standard? && r in referendumInfoOf && referendumInfoOf[r].Ongoing? {
            var tally := referendumInfoOf[r].status.tally.Increase(vote.vote.aye, amount);
            referendumInfoOf := referendumInfoOf[r := V.WithTally(referendumInfoOf[r], tally)];
          }
        }
        assert vec[..|vec|] == vec;
        WriteVoting(who, DirectRecord(vec, delegations.SaturatingAdd(amount), prior));
        votes := |vec|;
    }

    method ReduceUpstreamDelegation(who: Account, amount: Delegations) returns (votes: nat)
      requires Valid()
      modifies this`votingOf, this`referendumInfoOf
      ensures Valid()
      ensures BookView() == V.ReduceUpstream(old(BookView()), who, amount)
    {
      AbstractAt(votingOf, who);
      var v := RecordAt(votingOf, who);
      match v
      case DelegatingRecord(balance, target, conviction, delegations, prior) =>
        WriteVoting(who, DelegatingRecord(balance, target, conviction, delegations.SaturatingSub(amount), prior));
        votes := 1;
      case DirectRecord(vec, delegations, prior) =>
        ghost var before := referendumInfoOf;
        for i := 0 to |vec|
          invariant votingOf == old(votingOf)
          invariant referendumInfoOf == V.ReduceTallies(before, AsMap(vec[..i]), amount)
        {
          var (r, vote) := vec[i];
          PrefixGrows(vec, i);
          ReduceOneMore(before, AsMap(vec[..i]), r, vote, amount);
          if vote.Standard? && r in referendumInfoOf && referendumInfoOf[r].Ongoing? {
            var tally := referendumInfoOf[r].status.tally.Reduce(vote.vote.aye, amount);
            referendumInfoOf := referendumInfoOf[r := V.WithTally(referendumInfoOf[r], tally)];
          }
        }
        assert vec[..|vec|] == vec;
        WriteVoting(who, DirectRecord(vec, delegations.SaturatingSub(amount), prior));
        votes := |vec|;
    }

    method TryDelegate(who: Account, target: Account, conviction: Conviction, balance: nat, totalBalance: nat)
      returns (res: Outcome)
      requires Valid()
      modifies this`votingOf, this`referendumInfoOf, this`frozen
      ensures Valid()
      ensures match V.TryDelegate(config.voting, old(BookView()), now, who, target, conviction, balance, totalBalance)
              case Ok(b) => res == Done && BookView() == b
              case Err(e) => res == Failed(e) && BookView() == old(BookView())
    {
      AbstractAt(votingOf, who);
      if who == target { return Failed(V.Nonsense); }
      if balance > totalBalance { return Failed(V.InsufficientFunds); }
      var was := RecordAt(votingOf, who);
      var prior := was.prior;
      if was.DelegatingRecord? {
        var _ := ReduceUpstreamDelegation(was.target, was.conviction.Votes(was.balance));
        prior := prior.Accumulate(V.UnlockBlock(config.voting, now, was.conviction.LockPeriods()), was.balance);
      } else {
        SizeOf(was.votes);
        if |was.votes| != 0 { return Failed(V.VotesExist); }
      }
      var _ := IncreaseUpstreamDelegation(target, conviction.Votes(balance));
      ExtendFreeze(who, balance);
      WriteVoting(who, DelegatingRecord(balance, target, conviction, was.delegations, prior));
      res := Done;
    }

    method TryUndelegate(who: Account) returns (res: Outcome)
      requires Valid()
      modifies this`votingOf, this`referendumInfoOf
      ensures Valid()
      ensures match V.TryUndelegate(config.voting, old(BookView()), now, who)
              case Ok(b) => res == Done && BookView() == b
              case Err(e) => res == Failed(e) && BookView() == old(BookView())
    {
      AbstractAt(votingOf, who);
      var was := RecordAt(votingOf, who);
      if was.DirectRecord? { return Failed(V.NotDelegating); }
      var _ := ReduceUpstreamDelegation(was.target, was.conviction.Votes(was.balance));
      var prior := was.prior.Accumulate(V.UnlockBlock(config.voting, now, was.conviction.LockPeriods()), was.balance);
      WriteVoting(who, DirectRecord([], was.delegations, prior));
      res := Done;
    }

    method UpdateLock(who: Account)
      requires Valid()
      modifies this`votingOf, this`frozen
      ensures Valid()
      ensures BookView() == V.UpdateLock(old(BookView()), now, who)
    {
      AbstractAt(votingOf, who);
      var v := RecordAt(votingOf, who);
      var w := match v
        case DirectRecord(votes, d, p) => DirectRecord(votes, d, p.Rejig(now))
        case DelegatingRecord(balance, target, conviction, d, p) =>
          DelegatingRecord(balance, target, conviction, d, p.Rejig(now));
      assert Abstract(w) == Abstract(v).Rejig(now);
      WriteVoting(who, w);
      var needed := LockedBalance(w);
      if needed == 0 {
        frozen := frozen - {who};
      } else {
        frozen := frozen[who := needed];
      }
    }

    // ------------------------------------------------ proposals and deposits

    /** Lower the hold of every depositor in turn: a refund or a slash. */
    method LowerHolds(whos: seq<Account>, amount: nat)
      modifies this`held
      ensures held == Q.LowerAll(old(held), whos, amount)
    {
      for i := 0 to |whos|
        invariant held == Q.LowerAll(old(held), whos[..i], amount)
      {
        assert whos[..i + 1][..i] == whos[..i];
        held := held[whos[i] := SatSub(At(held, whos[i]), amount)];
      }
      assert whos[..|whos|] == whos;
    }

    method TakeDeposit(p: PropIndex)
      modifies this`held, this`depositOf
      ensures QueueView() == Q.TakeDeposit(old(QueueView()), p)
    {
      if p in depositOf {
        LowerHolds(depositOf[p].depositors, depositOf[p].amount);
        depositOf := depositOf - {p};
      }
    }

    method Propose(who: Account, proposal: Proposal, value: nat, canHold: bool) returns (ok: bool)
      modifies this`held, this`depositOf, this`publicPropCount, this`publicProps
      ensures match Q.Propose(config.queue, old(QueueView()), now, who, proposal, value, canHold)
              case Some(q) => ok && QueueView() == q
              case None => !ok && QueueView() == old(QueueView())
    {
      if value < config.queue.minimumDeposit { return false; }
      var index := publicPropCount;
      if |publicProps| >= config.queue.maxProposals { return false; }
      if proposal in blacklist && now < blacklist[proposal] { return false; }
      if !canHold { return false; }
      assert [who][..0] == [] && [who][..1] == [who];
      held := held[who := At(held, who) + value];
      depositOf := depositOf[index := Q.Deposit([who][..Min(1, config.queue.maxDeposits)], value)];
      publicPropCount := index + 1;
      publicProps := publicProps + [Q.PublicProp(index, proposal, who)];
      ok := true;
    }

    method Second(who: Account, p: PropIndex, canHold: bool) returns (ok: bool)
      modifies this`held, this`depositOf
      ensures match Q.Second(config.queue, old(QueueView()), who, p, canHold)
              case Some(q) => ok && QueueView() == q
              case None => !ok && QueueView() == old(QueueView())
    {
      if p !in depositOf || |depositOf[p].depositors| >= config.queue.maxDeposits { return false; }
      if !canHold { return false; }
      var deposit := depositOf[p];
      held := held[who := At(held, who) + deposit.amount];
      depositOf := depositOf[p := Q.Deposit(deposit.depositors + [who], deposit.amount)];
      ok := true;
    }

    method CancelProposal(p: PropIndex)
      modifies this`held, this`depositOf, this`publicProps
      ensures QueueView() == Q.CancelProposal(old(QueueView()), p)
    {
      var kept := [];
      for i := 0 to |publicProps|
        invariant kept == Q.Retain(publicProps[..i], p)
      {
        assert publicProps[..i + 1][..i] == publicProps[..i];
        if publicProps[i].index != p {
          kept := kept + [publicProps[i]];
        }
      }
      assert publicProps[..|publicProps|] == publicProps;
      publicProps := kept;
      TakeDeposit(p);
    }

    method BlacklistQueue(proposal: Proposal)
      modifies this`held, this`depositOf, this`publicProps, this`blacklist, this`nextExternal
      ensures QueueView() == Q.BlacklistProposal(old(QueueView()), proposal)
    {
      blacklist := blacklist[proposal := MAX_BLOCK];
      var i := Q.Position(publicProps, proposal);
      if i < |publicProps| {
        var p := publicProps[i].index;
        publicProps := publicProps[..i] + publicProps[i + 1..];
        TakeDeposit(p);
      }
      if nextExternal.Some? && nextExternal.value.0 == proposal {
        nextExternal := None;
      }
    }

    method Blacklist(proposal: Proposal, maybeRef: Option<RefIndex>)
      modifies this`held, this`depositOf, this`publicProps, this`blacklist, this`nextExternal, this`referendumInfoOf
      ensures View() == D.Blacklist(old(View()), proposal, maybeRef)
    {
      BlacklistQueue(proposal);
      if maybeRef.Some? {
        var r := maybeRef.value;
        if r in referendumInfoOf && referendumInfoOf[r].Ongoing? && referendumInfoOf[r].status.proposal == proposal {
          referendumInfoOf := referendumInfoOf - {r};
        }
      }
    }

    // ------------------------------------------------------------ scheduling

    method InjectReferendum(end: nat, proposal: Proposal, threshold: Threshold, delay: nat) returns (r: RefIndex)
      modifies this`referendumCount, this`referendumInfoOf
      ensures View() == D.InjectReferendum(old(View()), end, proposal, threshold, delay)
      ensures r == old(referendumCount)
    {
      r := referendumCount;
      referendumCount := r + 1;
      referendumInfoOf := referendumInfoOf[r := Ongoing(Status(end, proposal, threshold, delay, EMPTY_TALLY))];
    }

    method LaunchExternal() returns (ok: bool)
      modifies this`referendumCount, this`referendumInfoOf, this`nextExternal, this`lastTabledWasExternal
      ensures match D.LaunchExternal(config, old(View()))
              case Some(s) => ok && View() == s
              case None => !ok && View() == old(View())
    {
      if nextExternal.None? { return false; }
      var (proposal, threshold) := nextExternal.value;
      nextExternal := None;
      lastTabledWasExternal := true;
      var _ := InjectReferendum(BlockAdd(now, config.votingPeriod), proposal, threshold, config.enactmentPeriod);
      ok := true;
    }

    /** The position of the highest backing, the last one among equals. */
    method FindBestBacked() returns (best: nat)
      requires |publicProps| > 0
      ensures best == Q.BestBacked(QueueView(), |publicProps|)
    {
      best := 0;
      var n := 1;
      while n < |publicProps|
        invariant 1 <= n <= |publicProps| && best < n
        invariant best == Q.BestBacked(QueueView(), n)
      {
        var challenger := BackingFor(publicProps[n].index);
        var champion := BackingFor(publicProps[best].index);
        if champion <= challenger { best := n; }
        n := n + 1;
      }
    }

    method LaunchPublic() returns (ok: bool)
      modifies this`referendumCount, this`referendumInfoOf, this`publicProps, this`depositOf, this`held
      ensures match D.LaunchPublic(config, old(View()))
              case Some(s) => ok && View() == s
              case None => !ok && View() == old(View())
    {
      if |publicProps| == 0 { return false; }
      var best := FindBestBacked();
      var p := publicProps[best];
      publicProps := Q.SwapRemove(publicProps, best);
      if p.index in depositOf {
        TakeDeposit(p.index);
        var _ := InjectReferendum(BlockAdd(now, config.votingPeriod), p.proposal, SuperMajorityApprove,
                                  config.enactmentPeriod);
      }
      ok := true;
    }

    method BackingFor(p: PropIndex) returns (b: nat)
      ensures b == Q.Backing(QueueView(), p)
    {
      b := if p in depositOf then SatMul(depositOf[p].amount, |depositOf[p].depositors|) else 0;
    }

    method LaunchNext()
      modifies this`referendumCount, this`referendumInfoOf, this`publicProps, this`depositOf, this`held,
        this`nextExternal, this`lastTabledWasExternal
      ensures View() == D.LaunchNext(config, old(View()))
    {
      var external := lastTabledWasExternal;
      lastTabledWasExternal := false;
      if external {
        var ok := LaunchPublic();
        if !ok { ok := LaunchExternal(); }
      } else {
        var ok := LaunchExternal();
        if !ok { ok := LaunchPublic(); }
      }
    }

    /** Collect the ongoing referenda in a range of indices that end now, in order. */
    method MaturingReferenda(lo: nat, hi: nat) returns (found: seq<(RefIndex, Status)>)
      requires lo <= hi
      ensures Collected(referendumInfoOf, now, lo, hi, found)
    {
      found := [];
      for i := lo to hi
        invariant Collected(referendumInfoOf, now, lo, i, found)
      {
        CollectedGrows(referendumInfoOf, now, lo, i, found);
        if i in referendumInfoOf && referendumInfoOf[i].Ongoing? && referendumInfoOf[i].status.end == now {
          found := found + [(i, referendumInfoOf[i].status)];
        }
      }
    }

    method BakeReferenda(found: seq<(RefIndex, Status)>, electorate: D.Electorate, ghost lo: nat, ghost hi: nat)
      requires lo <= hi && Collected(referendumInfoOf, now, lo, hi, found)
      modifies this`referendumInfoOf
      ensures referendumInfoOf == D.BakeRange(old(referendumInfoOf), now, electorate, lo, hi)
    {
      ghost var refs := referendumInfoOf;
      BakeStart(refs, now, electorate, lo, hi, found);
      for k := 0 to |found|
        invariant referendumInfoOf == D.BakeRange(refs, now, electorate, lo, UpTo(found, k, hi))
      {
        var status := found[k].1;
        var approved := T.ComputeApproved(status.threshold, status.tally, electorate);
        BakeNext(refs, now, electorate, lo, hi, found, k);
        referendumInfoOf := referendumInfoOf[found[k].0 := Finished(approved, now)];
      }
    }

    method AdvanceLowestUnbaked(last: nat)
      requires lowestUnbaked <= last
      modifies this`lowestUnbaked
      ensures lowestUnbaked == D.SkipBaked(referendumInfoOf, old(lowestUnbaked), last)
    {
      while lowestUnbaked < last && (lowestUnbaked !in referendumInfoOf || referendumInfoOf[lowestUnbaked].Finished?)
        invariant old(lowestUnbaked) <= lowestUnbaked <= last
        invariant D.SkipBaked(referendumInfoOf, lowestUnbaked, last)
            == D.SkipBaked(referendumInfoOf, old(lowestUnbaked), last)
      {
        lowestUnbaked := lowestUnbaked + 1;
      }
    }

    method BeginBlock(electorate: D.Electorate)
      requires config.launchPeriod > 0 && lowestUnbaked <= referendumCount
      modifies this`referendumCount, this`referendumInfoOf, this`publicProps, this`depositOf, this`held,
        this`nextExternal, this`lastTabledWasExternal, this`lowestUnbaked
      ensures View() == D.BeginBlock(config, old(View()), electorate)
    {
      var next, last := lowestUnbaked, referendumCount;
      if now % config.launchPeriod == 0 {
        LaunchNext();
      }
      var found := MaturingReferenda(next, last);
      BakeReferenda(found, electorate, next, last);
      AdvanceLowestUnbaked(last);
    }
  }

  /** `found` lists, in increasing order, exactly the referenda of the range that end now. */
  ghost predicate Collected(refs: map<RefIndex, ReferendumInfo>, now: nat, lo: nat, hi: nat,
                            found: seq<(RefIndex, Status)>) {
    && (forall k :: 0 <= k < |found| ==>
          lo <= found[k].0 < hi && D.Matures(refs, found[k].0, now) && refs[found[k].0].status == found[k].1)
    && (forall j, k :: 0 <= j < k < |found| ==> found[j].0 < found[k].0)
    && (forall r :: lo <= r < hi && D.Matures(refs, r, now) ==> exists k :: 0 <= k < |found| && found[k].0 == r)
  }

  /** Where the referenda before the `k`-th one found end. */
  ghost function UpTo(found: seq<(RefIndex, Status)>, k: nat, hi: nat): nat {
    if k < |found| then found[k].0 else hi
  }

  /** Before the first maturing referendum there is nothing to bake. */
  lemma {:induction false} BakeStart(refs: map<RefIndex, ReferendumInfo>, now: nat, electorate: D.Electorate, lo: nat,
                                     hi: nat,
                                     found: seq<(RefIndex, Status)>)
    requires lo <= hi && Collected(refs, now, lo, hi, found)
    ensures D.BakeRange(refs, now, electorate, lo, UpTo(found, 0, hi)) == refs
  {
  }

  lemma {:induction false} BakeNext(refs: map<RefIndex, ReferendumInfo>, now: nat, electorate: D.Electorate, lo: nat,
                                    hi: nat,
                                    found: seq<(RefIndex, Status)>, k: nat)
    requires lo <= hi && Collected(refs, now, lo, hi, found) && k < |found|
    ensures D.BakeRange(refs, now, electorate, lo, UpTo(found, k + 1, hi))
         == D.BakeRange(refs, now, electorate, lo, UpTo(found, k, hi))
              [found[k].0 := Finished(T.Approved(found[k].1.threshold, found[k].1.tally, electorate), now)]
  {
  }

  lemma {:induction false} CollectedGrows(refs: map<RefIndex, ReferendumInfo>, now: nat, lo: nat, i: nat,
                                          found: seq<(RefIndex, Status)>)
    requires lo <= i && Collected(refs, now, lo, i, found)
    ensures D.Matures(refs, i, now) ==> Collected(refs, now, lo, i + 1, found + [(i, refs[i].status)])
    ensures !D.Matures(refs, i, now) ==> Collected(refs, now, lo, i + 1, found)
  {
    if D.Matures(refs, i, now) {
      var more := found + [(i, refs[i].status)];
      forall r | lo <= r < i + 1 && D.Matures(refs, r, now) ensures exists k :: 0 <= k < |more| && more[k].0 == r {
        if r == i {
          assert more[|found|].0 == r;
        } else {
          var k :| 0 <= k < |found| && found[k].0 == r;
          assert more[k].0 == r;
        }
      }
    }
  }
}
