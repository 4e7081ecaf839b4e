/** The calls of the democracy pallet as its users see them: what each guarantees in a sound state. */
module DemocracyCalls {
  import opened Totals
  import opened DemocracyTypes
  import V = DemocracyVoting
  import I = DemocracyVotingInvariant
  import Q = DemocracyQueue
  import D = Democracy
  import R = DemocracyRuns
  import P = DemocracyPallet

  /** The invariant of every reachable state. */
  ghost predicate Sound(p: P.Pallet)
    reads p
  {
    p.Valid() && D.SettingsOk(p.config) && D.Inv(p.View()) && p.now < MAX_BLOCK
  }

  // ------------------------------------------------------- proposals and deposits

  ghost predicate Queued(before: Q.Queue, after: Q.Queue, who: Account, proposal: Proposal, value: nat) {
    && before.propCount !in before.deposits
    && after.props == before.props + [Q.PublicProp(before.propCount, proposal, who)]
    && Q.Backing(after, before.propCount) == Min(value, MAX_BALANCE)
    && At(after.held, who) == At(before.held, who) + value
    && forall a :: a != who ==> At(after.held, a) == At(before.held, a)
  }

  lemma {:induction false} ProposeQueues(c: Q.Config, q: Q.Queue, now: nat, who: Account, proposal: Proposal,
                                         value: nat,
                                         canHold: bool)
    requires Q.QueueInv(q) && c.maxDeposits > 0 && Q.Propose(c, q, now, who, proposal, value, canHold).Some?
    ensures Queued(q, Q.Propose(c, q, now, who, proposal, value, canHold).value, who, proposal, value)
  {
  }

  /** An accepted proposal is queued last under a new index, backed by the proposer's deposit, which is
      on hold; nobody else's hold moves. */
  method Propose(p: P.Pallet, who: Account, proposal: Proposal, value: nat, canHold: bool) returns (ok: bool)
    requires Sound(p)
    modifies p
    ensures Sound(p)
    ensures p.View() == D.Step(p.config, old(p.View()), D.CallPropose(who, proposal, value, canHold))
    ensures ok <==>
      && p.config.queue.minimumDeposit <= value && |old(p.publicProps)| < p.config.queue.maxProposals && canHold
      && (proposal in old(p.blacklist) ==> old(p.blacklist)[proposal] <= p.now)
    ensures ok ==> Queued(old(p.QueueView()), p.QueueView(), who, proposal, value)
    ensures !ok ==> p.View() == old(p.View())
  {
    ghost var s := p.View();
    R.QueueCallKeepsInvariant(p.config, s, D.CallPropose(who, proposal, value, canHold));
    ok := p.Propose(who, proposal, value, canHold);
    if ok { ProposeQueues(p.config.queue, s.queue, p.now, who, proposal, value, canHold); }
  }

  ghost predicate Seconded(before: Q.Queue, after: Q.Queue, who: Account, p: PropIndex) {
    && p in before.deposits && p in after.deposits && after.deposits[p].amount == before.deposits[p].amount
    && multiset(after.deposits[p].depositors) == multiset(before.deposits[p].depositors) + multiset{who}
    && At(after.held, who) == At(before.held, who) + before.deposits[p].amount
    && (forall a :: a != who ==> At(after.held, a) == At(before.held, a))
    && Q.Backing(after, p) == SatAdd(Q.Backing(before, p), before.deposits[p].amount)
  }

  lemma {:induction false} SecondBacks(c: Q.Config, q: Q.Queue, who: Account, p: PropIndex, canHold: bool)
    requires Q.Second(c, q, who, p, canHold).Some?
    ensures Seconded(q, Q.Second(c, q, who, p, canHold).value, who, p)
  {
    var d := q.deposits[p];
    var q' := Q.Second(c, q, who, p, canHold).value;
    assert q'.deposits[p] == Q.Deposit(d.depositors + [who], d.amount);
    assert Q.Backing(q', p) == SatAdd(Q.Backing(q, p), d.amount) by { Q.OneMoreBacks(d.amount, |d.depositors|); }
  }

  /** An accepted second adds one appearance of the account, one deposit to its hold and as much to the
      backing; nobody else's hold moves. */
  method Second(p: P.Pallet, who: Account, prop: PropIndex, canHold: bool) returns (ok: bool)
    requires Sound(p)
    modifies p
    ensures Sound(p)
    ensures p.View() == D.Step(p.config, old(p.View()), D.CallSecond(who, prop, canHold))
    ensures ok <==>
      prop in old(p.depositOf) && |old(p.depositOf)[prop].depositors| < p.config.queue.maxDeposits && canHold
    ensures ok ==> Seconded(old(p.QueueView()), p.QueueView(), who, prop)
    ensures !ok ==> p.View() == old(p.View())
  {
    ghost var s := p.View();
    R.QueueCallKeepsInvariant(p.config, s, D.CallSecond(who, prop, canHold));
    ok := p.Second(who, prop, canHold);
    if ok { SecondBacks(p.config.queue, s.queue, who, prop, canHold); }
  }

  ghost predicate Slashed(before: Q.Queue, after: Q.Queue, p: PropIndex) {
    && p !in after.deposits && (forall i :: 0 <= i < |after.props| ==> after.props[i].index != p)
    && (p in before.deposits ==> forall a ::
          At(after.held, a) + multiset(before.deposits[p].depositors)[a] * before.deposits[p].amount
            == At(before.held, a))
  }

  lemma {:induction false} CancelSlashes(q: Q.Queue, p: PropIndex)
    requires Q.QueueInv(q)
    ensures Slashed(q, Q.CancelProposal(q, p), p)
  {
    var q' := Q.CancelProposal(q, p);
    Q.RetainKeeps(q.props, p);
    assert forall i :: 0 <= i < |q'.props| ==> q'.props[i] in Q.Retain(q.props, p);
    if p in q.deposits {
      forall a ensures At(q'.held, a) + multiset(q.deposits[p].depositors)[a] * q.deposits[p].amount == At(q.held, a) {
        Q.TakeExact(q, p, a);
      }
    }
  }

  /** The proposal is off the queue, and every hold has fallen by its deposit times the account's
      appearances among the depositors. */
  method CancelProposal(p: P.Pallet, prop: PropIndex)
    requires Sound(p)
    modifies p
    ensures Sound(p)
    ensures p.View() == D.Step(p.config, old(p.View()), D.CallCancelProposal(prop))
    ensures Slashed(old(p.QueueView()), p.QueueView(), prop)
  {
    ghost var s := p.View();
    R.QueueCallKeepsInvariant(p.config, s, D.CallCancelProposal(prop));
    p.CancelProposal(prop);
    CancelSlashes(s.queue, prop);
  }

  /** No matching external proposal waits, the proposal cannot be made again, and the first match on the
      queue is off it with its deposit slashed by appearances. */
  ghost predicate Barred(c: Q.Config, before: Q.Queue, after: Q.Queue, proposal: Proposal) {
    && (after.nextExternal.Some? ==> after.nextExternal.value.0 != proposal)
    && (forall now: nat, who: Account, value: nat, canHold: bool :: now < MAX_BLOCK ==>
          Q.Propose(c, after, now, who, proposal, value, canHold) == None)
    && var i := Q.Position(before.props, proposal);
       i < |before.props| ==>
         var p := before.props[i].index;
         && after.props == before.props[..i] + before.props[i + 1..]
         && p in before.deposits && p !in after.deposits
         && forall a :: At(after.held, a) + multiset(before.deposits[p].depositors)[a] * before.deposits[p].amount
                        == At(before.held, a)
  }

  lemma {:induction false} BlacklistBars(c: Q.Config, q: Q.Queue, proposal: Proposal)
    requires Q.QueueInv(q)
    ensures Barred(c, q, Q.BlacklistProposal(q, proposal), proposal)
  {
    Q.BlacklistExact(c, q, proposal, Q.Position(q.props, proposal));
  }

  /** The proposal is barred, and a matching ongoing referendum, if it is named, is gone. */
  method Blacklist(p: P.Pallet, proposal: Proposal, maybeRef: Option<RefIndex>)
    requires Sound(p)
    modifies p
    ensures Sound(p)
    ensures p.View() == D.Step(p.config, old(p.View()), D.CallBlacklist(proposal, maybeRef))
    ensures Barred(p.config.queue, old(p.QueueView()), p.QueueView(), proposal)
    ensures maybeRef.Some? && V.IsOngoing(p.referendumInfoOf, maybeRef.value) ==>
      p.referendumInfoOf[maybeRef.value].status.proposal != proposal
  {
    ghost var s := p.View();
    R.QueueCallKeepsInvariant(p.config, s, D.CallBlacklist(proposal, maybeRef));
    BlacklistRemoves(p.config, s, proposal, maybeRef);
    p.Blacklist(proposal, maybeRef);
  }

  lemma {:induction false} BlacklistRemoves(c: D.Settings, s: D.State, proposal: Proposal, maybeRef: Option<RefIndex>)
    requires D.SettingsOk(c) && s.lowest <= s.count && Q.QueueInv(s.queue)
    ensures var s' := D.Blacklist(s, proposal, maybeRef);
            && D.Step(c, s, D.CallBlacklist(proposal, maybeRef)) == s' && s'.now == s.now
            && Barred(c.queue, s.queue, s'.queue, proposal)
            && (maybeRef.Some? && V.IsOngoing(s'.book.refs, maybeRef.value) ==>
                  s'.book.refs[maybeRef.value].status.proposal != proposal)
  {
    BlacklistBars(c.queue, s.queue, proposal);
  }

  // --------------------------------------------------------------------- voting

  /** At least the balance is frozen, and no more than before unless that was less; nobody else's freeze
      moves. */
  ghost predicate Frozen(before: map<Account, nat>, after: map<Account, nat>, who: Account, balance: nat) {
    At(after, who) == Max(At(before, who), balance) && forall a :: a != who ==> At(after, a) == At(before, a)
  }

  /** Provided all committed capital stays representable, the state stays sound, the tally is the one
      recomputed over all votes and delegations, and the freeze is extended to the balance. The underflow
      error does not occur at all. */
  method Vote(p: P.Pallet, who: Account, r: RefIndex, vote: AccountVote, total: nat) returns (res: P.Outcome)
    requires Sound(p)
    modifies p
    ensures p.View() == D.Step(p.config, old(p.View()), D.CallVote(who, r, vote, total))
    ensures V.Funded(p.BookView().voting) ==> Sound(p)
    ensures res == P.Done ==> V.IsOngoing(p.referendumInfoOf, r) && Frozen(old(p.frozen), p.frozen, who, vote.Balance())
    ensures res == P.Done && V.Funded(p.BookView().voting) ==>
      p.referendumInfoOf[r].status.tally == V.TallyOf(p.BookView().voting, r)
    ensures res != P.Failed(V.Underflow)
    ensures res != P.Done ==> p.View() == old(p.View())
  {
    ghost var s := p.View();
    I.VoteNeverUnderflows(p.config.voting, s.book, who, r, vote, total, s.count);
    res := p.TryVote(who, r, vote, total);
    SoundStep(p.config, s, D.CallVote(who, r, vote, total));
    if res == P.Done { VotedFreezes(p.config.voting, s.book, who, r, vote, total); }
  }

  lemma {:induction false} SoundStep(c: D.Settings, s: D.State, call: D.Call)
    requires D.SettingsOk(c) && D.Inv(s) && s.now < MAX_BLOCK && R.IsBookCall(call)
    ensures D.Step(c, s, call).now == s.now
    ensures V.Funded(D.Step(c, s, call).book.voting) ==> D.Inv(D.Step(c, s, call))
  {
    R.BookCallKeepsStages(c, s, call);
    if V.Funded(D.Step(c, s, call).book.voting) { R.StepKeepsInvariant(c, s, call); }
  }

  lemma {:induction false} VotedFreezes(c: V.Config, b: V.Book, who: Account, r: RefIndex, vote: AccountVote,
                                        total: nat)
    requires V.TryVote(c, b, who, r, vote, total).Ok?
    ensures var b' := V.TryVote(c, b, who, r, vote, total).value;
            V.IsOngoing(b'.refs, r) && Frozen(b.frozen, b'.frozen, who, vote.Balance())
  {
  }

  lemma {:induction false} DelegatedFreezes(c: V.Config, b: V.Book, now: nat, who: Account, to: Account,
                                            conviction: Conviction, balance: nat, total: nat)
    requires V.TryDelegate(c, b, now, who, to, conviction, balance, total).Ok?
    ensures Frozen(b.frozen, V.TryDelegate(c, b, now, who, to, conviction, balance, total).value.frozen, who, balance)
  {
  }

  /** There is a vote to remove, and it is the signer's own or no longer counts or locks; or the voter
      delegates, and nothing happens. */
  ghost predicate Removable(c: V.Config, b: V.Book, now: nat, signer: Account, voter: Account, r: RefIndex) {
    var v := V.VotingAt(b.voting, voter);
    v.Delegating? || (V.VotesOn(v, r) && (signer == voter || !I.StillMatters(c, b, now, voter, r)))
  }

  /** `remove_vote`, and `remove_other_vote` when the signer is not the voter. The voter can
      always remove a vote, anyone else exactly once it no longer counts or locks. Removing never
      underflows and loosens no freeze. */
  method RemoveVote(p: P.Pallet, signer: Account, voter: Account, r: RefIndex) returns (res: P.Outcome)
    requires Sound(p)
    modifies p
    ensures p.View() == D.Step(p.config, old(p.View()), D.CallRemoveVote(signer, voter, r))
    ensures V.Funded(p.BookView().voting) ==> Sound(p)
    ensures p.frozen == old(p.frozen)
    ensures res == P.Done <==> Removable(p.config.voting, old(p.BookView()), p.now, signer, voter, r)
    ensures res != P.Failed(V.Underflow)
    ensures res != P.Done ==> p.View() == old(p.View())
  {
    ghost var s := p.View();
    RemovalOutcome(p.config, s, signer, voter, r);
    res := p.TryRemoveVote(voter, r, signer == voter);
    SoundStep(p.config, s, D.CallRemoveVote(signer, voter, r));
  }

  lemma {:induction false} RemovalOutcome(c: D.Settings, s: D.State, signer: Account, voter: Account, r: RefIndex)
    requires D.SettingsOk(c) && D.Inv(s)
    ensures var outcome := V.TryRemoveVote(c.voting, s.book, s.now, voter, r, signer == voter);
            && (outcome.Ok? <==> Removable(c.voting, s.book, s.now, signer, voter, r))
            && outcome != V.Err(V.Underflow) && (outcome.Ok? ==> outcome.value.frozen == s.book.frozen)
            && D.Step(c, s, D.CallRemoveVote(signer, voter, r)) == D.OrUnchanged(s, outcome)
  {
    I.RemoveVoteNeverUnderflows(c.voting, s.book, s.now, voter, r, signer == voter, s.count);
    I.RemoveVoteAcceptedIff(c.voting, s.book, s.now, voter, r, signer == voter, s.count);
  }

  /** Provided all committed capital stays representable, the state stays sound: the target's counter is
      the sum over its delegators and every tally is exact. */
  method Delegate(p: P.Pallet, who: Account, to: Account, conviction: Conviction, balance: nat, total: nat)
    returns (res: P.Outcome)
    requires Sound(p)
    modifies p
    ensures p.View() == D.Step(p.config, old(p.View()), D.CallDelegate(who, to, conviction, balance, total))
    ensures V.Funded(p.BookView().voting) ==> Sound(p)
    ensures res == P.Done <==>
      && who != to && balance <= total
      && var was := V.VotingAt(old(p.BookView()).voting, who);
         was.Delegating? || was.votes == map[]
    ensures res == P.Done ==> Frozen(old(p.frozen), p.frozen, who, balance)
    ensures V.Funded(p.BookView().voting) ==>
      V.VotingAt(p.BookView().voting, to).delegations == V.DelegatedTo(p.BookView().voting, to)
    ensures res != P.Done ==> p.View() == old(p.View())
  {
    ghost var s := p.View();
    I.DelegateAcceptedIff(p.config.voting, s.book, s.now, who, to, conviction, balance, total);
    res := p.TryDelegate(who, to, conviction, balance, total);
    if res == P.Done { DelegatedFreezes(p.config.voting, s.book, s.now, who, to, conviction, balance, total); }
    SoundStep(p.config, s, D.CallDelegate(who, to, conviction, balance, total));
  }

  /** Likewise when a delegation ends. */
  method Undelegate(p: P.Pallet, who: Account) returns (res: P.Outcome)
    requires Sound(p)
    modifies p
    ensures p.View() == D.Step(p.config, old(p.View()), D.CallUndelegate(who))
    ensures V.Funded(p.BookView().voting) ==> Sound(p)
    ensures res == P.Done <==> V.VotingAt(old(p.BookView()).voting, who).Delegating?
    ensures res != P.Done ==> p.View() == old(p.View())
  {
    ghost var s := p.View();
    res := p.TryUndelegate(who);
    SoundStep(p.config, s, D.CallUndelegate(who));
  }

  /** Unlocking freezes no more than before, and exactly what votes, delegation and unexpired locks need. */
  method Unlock(p: P.Pallet, voter: Account)
    requires Sound(p)
    modifies p
    ensures p.View() == D.Step(p.config, old(p.View()), D.CallUnlock(voter))
    ensures V.Funded(p.BookView().voting) ==> Sound(p)
    ensures At(p.frozen, voter) <= At(old(p.frozen), voter)
    ensures At(p.frozen, voter) == V.VotingAt(p.BookView().voting, voter).LockedBalance()
  {
    ghost var s := p.View();
    I.UnlockKeepsInvariant(s.book, s.now, voter, s.count);
    p.UpdateLock(voter);
    SoundStep(p.config, s, D.CallUnlock(voter));
  }

  // ------------------------------------------------------------------ the block

  /** `on_initialize`: the next block. The state stays sound, exactly the referenda ending in it are
      finished, one more is launched exactly when the launch period is up and something waits, and
      `LowestUnbaked` is the count or an ongoing referendum. */
  method NextBlock(p: P.Pallet, electorate: D.Electorate)
    requires Sound(p) && p.now + 1 < MAX_BLOCK
    modifies p
    ensures Sound(p) && p.now == old(p.now) + 1
    ensures p.View() == D.Step(p.config, old(p.View()), D.NextBlock(electorate))
    ensures p.referendumCount == old(p.referendumCount)
         + if p.now % p.config.launchPeriod == 0 && old(p.nextExternal.Some? || |p.publicProps| > 0) then 1 else 0
    ensures p.lowestUnbaked == p.referendumCount || V.IsOngoing(p.referendumInfoOf, p.lowestUnbaked)
    ensures forall r :: r in old(p.referendumInfoOf) && !D.Matures(old(p.referendumInfoOf), r, p.now) ==>
      r in p.referendumInfoOf && p.referendumInfoOf[r] == old(p.referendumInfoOf)[r]
    ensures forall r :: D.Matures(old(p.referendumInfoOf), r, p.now) ==>
      r in p.referendumInfoOf && p.referendumInfoOf[r].Finished? && p.referendumInfoOf[r].finishedAt == p.now
  {
    ghost var s := p.View();
    R.BlockOpens(s);
    R.BeginBlockExact(p.config, s.(now := s.now + 1), electorate);
    R.BlockTablesIff(p.config, s.(now := s.now + 1), electorate);
    R.NextBlockIsBeginBlock(p.config, s, electorate);
    p.now := p.now + 1;
    assert p.View() == s.(now := s.now + 1);
    p.BeginBlock(electorate);
  }
}
