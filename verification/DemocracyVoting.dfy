/** Voting, delegation and vote locks of the democracy pallet, as steps over its storage. */
module DemocracyVoting {
  import opened Totals
  import opened DemocracyTypes

  datatype Error =
    | ReferendumInvalid | InsufficientFunds | AlreadyDelegating | MaxVotesReached
    | Underflow | Overflow | NotVoter | NoPermission | Nonsense | VotesExist | NotDelegating

  datatype Result<+T> = Ok(value: T) | Err(error: Error)

  /** The pallet's configured constants that voting depends on. */
  datatype Config = Config(maxVotes: nat, voteLockingPeriod: nat)

  /** What an account is doing. The votes are keyed by referendum index. */
  datatype Voting =
    | Direct(votes: map<RefIndex, AccountVote>, delegations: Delegations, prior: PriorLock)
    | Delegating(balance: nat, target: Account, conviction: Conviction,
                 delegations: Delegations, prior: PriorLock)
  {
    function Balances(): map<RefIndex, nat>
      requires Direct?
    {
      map r | r in votes :: votes[r].Balance()
    }

    /** The amount that must be frozen because of this record. */
    ghost function LockedBalance(): nat {
      match this
      case Direct(_, _, _) => Max(prior.amount, Largest(Balances()))
      case Delegating(_, _, _, _, _) => Max(balance, prior.amount)
    }

    /** `set_common`: overwrite the two fields that both kinds of record share. */
    function SetCommon(d: Delegations, p: PriorLock): Voting {
      match this
      case Direct(votes, _, _) => Direct(votes, d, p)
      case Delegating(balance, target, conviction, _, _) => Delegating(balance, target, conviction, d, p)
    }

    function Rejig(now: nat): Voting {
      SetCommon(delegations, prior.Rejig(now))
    }
  }

  const IDLE := Direct(map[], NO_DELEGATIONS, NO_LOCK)

  /** `VotingOf`, `ReferendumInfoOf` and the `Vote` freezes of the currency. */
  datatype Book = Book(
    voting: map<Account, Voting>,
    refs: map<RefIndex, ReferendumInfo>,
    frozen: map<Account, nat>)

  function VotingAt(m: map<Account, Voting>, a: Account): Voting {
    if a in m then m[a] else IDLE
  }

  predicate IsOngoing(refs: map<RefIndex, ReferendumInfo>, r: RefIndex) {
    r in refs && refs[r].Ongoing?
  }

  function WithTally(info: ReferendumInfo, t: Tally): ReferendumInfo
    requires info.Ongoing?
  {
    Ongoing(info.status.(tally := t))
  }

  // ---------------------------------------------------------------- the steps

  function ExtendFreeze(frozen: map<Account, nat>, who: Account, amount: nat): map<Account, nat> {
    frozen[who := Max(At(frozen, who), amount)]
  }

  /** The tally of `r` once an earlier vote of this record on `r`, if any, is taken out. */
  function Cleared(t: Tally, v: Voting, r: RefIndex): Option<Tally>
    requires v.Direct?
  {
    if r in v.votes then t.Uncast(v.votes[r], v.delegations) else Some(t)
  }

  function TryVote(c: Config, b: Book, who: Account, r: RefIndex, vote: AccountVote, totalBalance: nat): Result<Book> {
    if !IsOngoing(b.refs, r) then Err(ReferendumInvalid)
    else if vote.Balance() > totalBalance then Err(InsufficientFunds)
    else
      var v := VotingAt(b.voting, who);
      if v.Delegating? then Err(AlreadyDelegating)
      else
        var cleared := Cleared(b.refs[r].status.tally, v, r);
        if r !in v.votes && |v.votes| >= c.maxVotes then Err(MaxVotesReached)
        else if cleared.None? then Err(Underflow)
        else
          var t := cleared.value.Cast(vote, v.delegations);
          if t.None? then Err(Overflow)
          else Ok(Book(b.voting[who := v.(votes := v.votes[r := vote])],
                       b.refs[r := WithTally(b.refs[r], t.value)],
                       ExtendFreeze(b.frozen, who, vote.Balance())))
  }

  function UnlockBlock(c: Config, from: nat, periods: nat): nat {
    BlockAdd(from, BlockMul(c.voteLockingPeriod, periods))
  }

  /** `ownScope` is `UnvoteScope::Any`; otherwise only expired votes may be removed. */
  function TryRemoveVote(c: Config, b: Book, now: nat, who: Account, r: RefIndex, ownScope: bool): Result<Book> {
    var v := VotingAt(b.voting, who);
    if v.Delegating? then Ok(b)
    else if r !in v.votes then Err(NotVoter)
    else
      var without := v.(votes := v.votes - {r});
      if r !in b.refs then Ok(b.(voting := b.voting[who := without]))
      else match b.refs[r]
        case Ongoing(status) =>
          if !ownScope then Err(NoPermission)
          else
            var t := Cleared(status.tally, v, r);
            if t.None? then Err(Underflow)
            else Ok(b.(voting := b.voting[who := without],
                       refs := b.refs[r := WithTally(b.refs[r], t.value)]))
        case Finished(approved, end) =>
          var lock := v.votes[r].LockedIf(approved);
          if lock.Some? && now < UnlockBlock(c, end, lock.value.0) then
            if !ownScope then Err(NoPermission)
            else
              var prior := v.prior.Accumulate(UnlockBlock(c, end, lock.value.0), lock.value.1);
              Ok(b.(voting := b.voting[who := without.SetCommon(v.delegations, prior)]))
          else Ok(b.(voting := b.voting[who := without]))
  }

  function IncreaseTallies(refs: map<RefIndex, ReferendumInfo>, votes: map<RefIndex, AccountVote>, amount: Delegations)
    : map<RefIndex, ReferendumInfo>
  {
    map r | r in refs ::
      if refs[r].Ongoing? && r in votes && votes[r].Standard?
      then WithTally(refs[r], refs[r].status.tally.Increase(votes[r].vote.aye, amount))
      else refs[r]
  }

  function ReduceTallies(refs: map<RefIndex, ReferendumInfo>, votes: map<RefIndex, AccountVote>, amount: Delegations)
    : map<RefIndex, ReferendumInfo>
  {
    map r | r in refs ::
      if refs[r].Ongoing? && r in votes && votes[r].Standard?
      then WithTally(refs[r], refs[r].status.tally.Reduce(votes[r].vote.aye, amount))
      else refs[r]
  }

  function IncreaseUpstream(b: Book, target: Account, amount: Delegations): Book {
    var v := VotingAt(b.voting, target);
    var w := v.SetCommon(v.delegations.SaturatingAdd(amount), v.prior);
    b.(voting := b.voting[target := w],
       refs := if v.Direct? then IncreaseTallies(b.refs, v.votes, amount) else b.refs)
  }

  function ReduceUpstream(b: Book, target: Account, amount: Delegations): Book {
    var v := VotingAt(b.voting, target);
    var w := v.SetCommon(v.delegations.SaturatingSub(amount), v.prior);
    b.(voting := b.voting[target := w],
       refs := if v.Direct? then ReduceTallies(b.refs, v.votes, amount) else b.refs)
  }

  /** The lock left behind by a delegation that ends now. */
  function PriorAfterDelegation(c: Config, now: nat, v: Voting): PriorLock
    requires v.Delegating?
  {
    v.prior.Accumulate(UnlockBlock(c, now, v.conviction.LockPeriods()), v.balance)
  }

  function TryDelegate(c: Config, b: Book, now: nat, who: Account, target: Account,
                       conviction: Conviction, balance: nat, totalBalance: nat): Result<Book>
  {
    if who == target then Err(Nonsense)
    else if balance > totalBalance then Err(InsufficientFunds)
    else
      var was := VotingAt(b.voting, who);
      if was.Direct? && was.votes != map[] then Err(VotesExist)
      else
        var freed := if was.Delegating? then ReduceUpstream(b, was.target, was.conviction.Votes(was.balance)) else b;
        var prior := if was.Delegating? then PriorAfterDelegation(c, now, was) else was.prior;
        var up := IncreaseUpstream(freed, target, conviction.Votes(balance));
        Ok(up.(voting := up.voting[who := Delegating(balance, target, conviction, was.delegations, prior)],
               frozen := ExtendFreeze(up.frozen, who, balance)))
  }

  function TryUndelegate(c: Config, b: Book, now: nat, who: Account): Result<Book> {
    var was := VotingAt(b.voting, who);
    if was.Direct? then Err(NotDelegating)
    else
      var freed := ReduceUpstream(b, was.target, was.conviction.Votes(was.balance));
      Ok(freed.(voting := freed.voting[who := Direct(map[], was.delegations, PriorAfterDelegation(c, now, was))]))
  }

  ghost function UpdateLock(b: Book, now: nat, who: Account): Book {
    var v := VotingAt(b.voting, who).Rejig(now);
    b.(voting := b.voting[who := v],
       frozen := if v.LockedBalance() == 0 then b.frozen - {who} else b.frozen[who := v.LockedBalance()])
  }

  // ------------------------------------------- what the caches are caches of

  /** A quantity each account contributes to, summed over all accounts by `Sum`. */
  datatype Measure =
    | AyesOn(r: RefIndex) | NaysOn(r: RefIndex) | TurnoutOn(r: RefIndex)
    | OwnOn(r: RefIndex) | BehindOn(r: RefIndex)
    | VotesFor(target: Account) | CapitalFor(target: Account) | CapitalInto(targets: set<Account>)
    | Locked

  ghost predicate VotesOn(v: Voting, r: RefIndex) {
    v.Direct? && r in v.votes
  }

  ghost predicate DelegatesTo(v: Voting, a: Account) {
    v.Delegating? && v.target == a
  }

  /** What one account adds to the tally of `r`. */
  ghost function Contribution(v: Voting, r: RefIndex): Tally {
    if VotesOn(v, r) then Worth(v.votes[r], v.delegations) else EMPTY_TALLY
  }

  ghost function Eval(q: Measure, v: Voting): nat {
    match q
    case AyesOn(r) => Contribution(v, r).ayes
    case NaysOn(r) => Contribution(v, r).nays
    case TurnoutOn(r) => Contribution(v, r).turnout
    case OwnOn(r) => if VotesOn(v, r) then Worth(v.votes[r], NO_DELEGATIONS).turnout else 0
    case BehindOn(r) => if VotesOn(v, r) && v.votes[r].Standard? then v.delegations.capital else 0
    case VotesFor(a) => if DelegatesTo(v, a) then v.conviction.Votes(v.balance).votes else 0
    case CapitalFor(a) => if DelegatesTo(v, a) then v.balance else 0
    case CapitalInto(s) => if v.Delegating? && v.target in s then v.balance else 0
    case Locked => v.LockedBalance()
  }

  ghost function Weights(m: map<Account, Voting>, q: Measure): map<Account, nat> {
    map a | a in m :: Eval(q, m[a])
  }

  ghost function Sum(m: map<Account, Voting>, q: Measure): nat {
    Total(Weights(m, q))
  }

  /** The tally recomputed from scratch, over everybody voting directly on `r`. */
  ghost function TallyOf(m: map<Account, Voting>, r: RefIndex): Tally {
    Tally(Sum(m, AyesOn(r)), Sum(m, NaysOn(r)), Sum(m, TurnoutOn(r)))
  }

  /** The delegations recomputed from scratch, over everybody delegating to `a`. */
  ghost function DelegatedTo(m: map<Account, Voting>, a: Account): Delegations {
    Delegations(Sum(m, VotesFor(a)), Sum(m, CapitalFor(a)))
  }

  ghost predicate DelegationsExact(m: map<Account, Voting>) {
    forall a :: VotingAt(m, a).delegations == DelegatedTo(m, a)
  }

  ghost predicate TalliesExact(b: Book) {
    forall r :: IsOngoing(b.refs, r) ==> b.refs[r].status.tally == TallyOf(b.voting, r)
  }

  /** Nobody delegates to themselves, votes name referenda that exist or existed, and split votes
      do not overflow. */
  ghost predicate RecordOk(a: Account, v: Voting, count: nat) {
    match v
    case Direct(votes, _, _) =>
      forall r :: r in votes ==> r < count && votes[r].Balance() == Worth(votes[r], NO_DELEGATIONS).turnout
    case Delegating(_, target, _, _, _) => target != a
  }

  ghost predicate RecordsOk(m: map<Account, Voting>, count: nat) {
    forall a :: a in m ==> RecordOk(a, m[a], count)
  }

  ghost predicate FreezesCover(b: Book) {
    forall a :: a in b.voting ==> b.voting[a].LockedBalance() <= At(b.frozen, a)
  }

  ghost predicate BookInv(b: Book, count: nat) {
    && DelegationsExact(b.voting)
    && TalliesExact(b)
    && RecordsOk(b.voting, count)
    && FreezesCover(b)
    && (forall r :: r in b.refs ==> r < count)
  }

  /** No saturation: six times all committed capital is representable. */
  ghost predicate Funded(m: map<Account, Voting>) {
    6 * Sum(m, Locked) <= MAX_BALANCE
  }

  // ------------------------------------------------------- sums over accounts

  lemma {:induction false} SumUpdate(m: map<Account, Voting>, a: Account, v: Voting, q: Measure)
    ensures Sum(m[a := v], q) + Eval(q, VotingAt(m, a)) == Sum(m, q) + Eval(q, v)
  {
    TotalUpdate(Weights(m, q), a, Eval(q, v));
    assert Weights(m[a := v], q) == Weights(m, q)[a := Eval(q, v)];
  }

  /** A record change that a measure does not see leaves the measure's sum alone. */
  lemma {:induction false} SumUnseen(m: map<Account, Voting>, a: Account, v: Voting, q: Measure)
    requires Eval(q, VotingAt(m, a)) == Eval(q, v)
    ensures Sum(m[a := v], q) == Sum(m, q)
  {
    SumUpdate(m, a, v, q);
  }

  lemma {:induction false} SumCovers(m: map<Account, Voting>, a: Account, q: Measure)
    ensures Eval(q, VotingAt(m, a)) <= Sum(m, q)
  {
    TotalCovers(Weights(m, q), a);
  }

  lemma {:induction false} SumPlus(m: map<Account, Voting>, q: Measure, x: Measure, y: Measure)
    requires forall a :: a in m ==> Eval(q, m[a]) == Eval(x, m[a]) + Eval(y, m[a])
    ensures Sum(m, q) == Sum(m, x) + Sum(m, y)
  {
    TotalPlus(Weights(m, q), Weights(m, x), Weights(m, y));
  }

  // -------------------------------------------- no capital is counted twice

  ghost function Received(m: map<Account, Voting>, s: set<Account>): map<Account, nat> {
    map a | a in s :: Sum(m, CapitalFor(a))
  }

  /** Exchanging the order of summation: capital received by a set of accounts is the capital of
      those who delegate into the set. */
  lemma {:induction false} CapitalExchange(m: map<Account, Voting>, s: set<Account>)
    ensures Total(Received(m, s)) == Sum(m, CapitalInto(s))
  {
    if s == {} {
      TotalZero(Weights(m, CapitalInto(s)));
    } else {
      var a :| a in s;
      var rest := s - {a};
      CapitalExchange(m, rest);
      ReceivedSplit(m, s, a);
      CapitalIntoSplit(m, a, rest);
      assert {a} + rest == s;
    }
  }

  lemma {:induction false} ReceivedSplit(m: map<Account, Voting>, s: set<Account>, a: Account)
    requires a in s
    ensures Total(Received(m, s)) == Sum(m, CapitalFor(a)) + Total(Received(m, s - {a}))
  {
    TotalSplit(Received(m, s), a);
    assert Received(m, s) - {a} == Received(m, s - {a});
  }

  lemma {:induction false} CapitalIntoSplit(m: map<Account, Voting>, a: Account, rest: set<Account>)
    requires a !in rest
    ensures Sum(m, CapitalInto({a} + rest)) == Sum(m, CapitalFor(a)) + Sum(m, CapitalInto(rest))
  {
    SumPlus(m, CapitalInto({a} + rest), CapitalFor(a), CapitalInto(rest));
  }

  ghost function StandardVoters(m: map<Account, Voting>, r: RefIndex): set<Account> {
    set a | a in m && VotesOn(m[a], r) && m[a].votes[r].Standard?
  }

  lemma {:induction false} BehindIsDelegatedInto(m: map<Account, Voting>, r: RefIndex)
    requires DelegationsExact(m)
    ensures Sum(m, BehindOn(r)) == Sum(m, CapitalInto(StandardVoters(m, r)))
  {
    var s := StandardVoters(m, r);
    var w, u := Received(m, s), Weights(m, BehindOn(r));
    forall a | a in s ensures w[a] == u[a] {
      assert VotingAt(m, a).delegations == DelegatedTo(m, a);
    }
    forall a | a in u ensures u[a] == At(w, a) {
      assert a in s || u[a] == 0;
    }
    TotalSame(w, u);
    CapitalExchange(m, s);
  }

  /** The turnout of a referendum never exceeds the capital locked behind it. */
  lemma {:induction false} TurnoutBounded(m: map<Account, Voting>, r: RefIndex, count: nat)
    requires DelegationsExact(m) && RecordsOk(m, count)
    ensures Sum(m, TurnoutOn(r)) <= Sum(m, Locked)
  {
    SumPlus(m, TurnoutOn(r), OwnOn(r), BehindOn(r));
    BehindIsDelegatedInto(m, r);
    ExposureBounded(m, r, StandardVoters(m, r), count);
  }

  /** An account either votes or delegates, so its capital is exposed at most once. */
  lemma {:induction false} ExposureBounded(m: map<Account, Voting>, r: RefIndex, s: set<Account>, count: nat)
    requires RecordsOk(m, count)
    ensures Sum(m, OwnOn(r)) + Sum(m, CapitalInto(s)) <= Sum(m, Locked)
  {
    var w := map a | a in m :: Eval(OwnOn(r), m[a]) + Eval(CapitalInto(s), m[a]);
    TotalPlus(w, Weights(m, OwnOn(r)), Weights(m, CapitalInto(s)));
    forall a | a in m ensures w[a] <= Weights(m, Locked)[a] {
      OwnWithinLock(a, m[a], r, count);
    }
    TotalMonotone(w, Weights(m, Locked));
  }

  lemma {:induction false} OwnWithinLock(a: Account, v: Voting, r: RefIndex, count: nat)
    requires RecordOk(a, v, count)
    ensures Eval(OwnOn(r), v) <= v.LockedBalance()
  {
    if VotesOn(v, r) {
      assert v.Balances()[r] == v.votes[r].Balance();
    }
  }

  lemma {:induction false} DelegatedVotesBounded(m: map<Account, Voting>, a: Account)
    ensures Sum(m, VotesFor(a)) <= 6 * Sum(m, CapitalFor(a))
  {
    TotalSixfold(Weights(m, VotesFor(a)), Weights(m, CapitalFor(a)));
  }

  /** Votes are at most six per unit of turnout. */
  lemma {:induction false} VotesBounded(m: map<Account, Voting>, r: RefIndex)
    requires DelegationsExact(m)
    ensures Sum(m, AyesOn(r)) + Sum(m, NaysOn(r)) <= 6 * Sum(m, TurnoutOn(r))
  {
    var w := map a | a in m :: Eval(AyesOn(r), m[a]) + Eval(NaysOn(r), m[a]);
    TotalPlus(w, Weights(m, AyesOn(r)), Weights(m, NaysOn(r)));
    forall a | a in m ensures w[a] <= 6 * Weights(m, TurnoutOn(r))[a] {
      assert VotingAt(m, a).delegations == DelegatedTo(m, a);
      DelegatedVotesBounded(m, a);
    }
    TotalSixfold(w, Weights(m, TurnoutOn(r)));
  }

  lemma {:induction false} TallyRepresentable(m: map<Account, Voting>, r: RefIndex, count: nat)
    requires DelegationsExact(m) && RecordsOk(m, count) && Funded(m)
    ensures TallyOf(m, r).Representable()
  {
    TurnoutBounded(m, r, count);
    VotesBounded(m, r);
  }
}
