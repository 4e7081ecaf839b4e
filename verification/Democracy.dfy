/** The democracy pallet as a state machine: referenda are launched, voted on and baked block by block. */
module Democracy {
  import opened Totals
  import opened DemocracyTypes
  import opened DemocracyVoting
  import opened VoteThreshold
  import Q = DemocracyQueue

  datatype Settings = Settings(
    voting: DemocracyVoting.Config,
    queue: Q.Config,
    votingPeriod: nat,
    launchPeriod: nat,
    enactmentPeriod: nat)

  /** Referenda need at least one block of voting, and proposals at least one depositor. */
  predicate SettingsOk(c: Settings) {
    c.votingPeriod > 0 && c.launchPeriod > 0 && c.queue.maxDeposits > 0
  }

  /** `count` is `ReferendumCount`, `lowest` is `LowestUnbaked`, `now` the current block. */
  datatype State = State(book: Book, count: nat, lowest: nat, now: nat, queue: Q.Queue)

  const GENESIS := State(Book(map[], map[], map[]), 0, 0, 0, Q.EMPTY_QUEUE)

  /** The total issuance, which is not zero on a chain with voters. */
  type Electorate = n: nat | n > 0 witness 1

  // -------------------------------------------------- launching referenda

  function InjectReferendum(s: State, end: nat, proposal: Proposal, threshold: Threshold, delay: nat): State {
    var item := Ongoing(Status(end, proposal, threshold, delay, EMPTY_TALLY));
    s.(count := s.count + 1, book := s.book.(refs := s.book.refs[s.count := item]))
  }

  function LaunchExternal(c: Settings, s: State): Option<State> {
    match s.queue.nextExternal
    case None => None
    case Some((proposal, threshold)) =>
      Some(InjectReferendum(s.(queue := s.queue.(nextExternal := None, lastWasExternal := true)),
                            BlockAdd(s.now, c.votingPeriod), proposal, threshold, c.enactmentPeriod))
  }

  function LaunchPublic(c: Settings, s: State): Option<State> {
    if |s.queue.props| == 0 then None
    else
      var i := Q.BestBacked(s.queue, |s.queue.props|);
      var p := s.queue.props[i];
      var q := s.queue.(props := Q.SwapRemove(s.queue.props, i));
      if p.index !in q.deposits then Some(s.(queue := q))
      else Some(InjectReferendum(s.(queue := Q.TakeDeposit(q, p.index)),
                                 BlockAdd(s.now, c.votingPeriod), p.proposal, SuperMajorityApprove, c.enactmentPeriod))
  }

  function OrElse(a: Option<State>, b: Option<State>, s: State): State {
    if a.Some? then a.value else if b.Some? then b.value else s
  }

  function LaunchNext(c: Settings, s: State): State {
    var s' := s.(queue := s.queue.(lastWasExternal := false));
    if s.queue.lastWasExternal then OrElse(LaunchPublic(c, s'), LaunchExternal(c, s'), s')
    else OrElse(LaunchExternal(c, s'), LaunchPublic(c, s'), s')
  }

  // ------------------------------------------------------- baking referenda

  ghost predicate Matures(refs: map<RefIndex, ReferendumInfo>, r: RefIndex, now: nat) {
    IsOngoing(refs, r) && refs[r].status.end == now
  }

  ghost function BakeRange(refs: map<RefIndex, ReferendumInfo>, now: nat, electorate: Electorate, lo: nat, hi: nat)
    : map<RefIndex, ReferendumInfo>
  {
    map r | r in refs ::
      if lo <= r < hi && Matures(refs, r, now)
      then Finished(Approved(refs[r].status.threshold, refs[r].status.tally, electorate), now)
      else refs[r]
  }

  /** Skip everything from `i` that is finished or cancelled. */
  function SkipBaked(refs: map<RefIndex, ReferendumInfo>, i: nat, last: nat): (j: nat)
    requires i <= last
    ensures i <= j <= last
    ensures forall r :: i <= r < j ==> !IsOngoing(refs, r)
    ensures j == last || IsOngoing(refs, j)
    decreases last - i
  {
    if i < last && !IsOngoing(refs, i) then SkipBaked(refs, i + 1, last) else i
  }

  ghost function BeginBlock(c: Settings, s: State, electorate: Electorate): (s': State)
    requires c.launchPeriod > 0
    requires s.lowest <= s.count
    ensures s'.lowest <= s'.count
  {
    var launched := if s.now % c.launchPeriod == 0 then LaunchNext(c, s) else s;
    var refs := BakeRange(launched.book.refs, s.now, electorate, s.lowest, s.count);
    launched.(book := launched.book.(refs := refs), lowest := SkipBaked(refs, s.lowest, s.count))
  }

  // ------------------------------------------------------------------- calls

  /** Everything that changes this pallet's storage. Answers of other pallets are parameters:
      whether an account can afford a hold, its total balance, whether an origin is permitted. */
  datatype Call =
    | NextBlock(electorate: Electorate)
    | CallVote(who: Account, r: RefIndex, vote: AccountVote, totalBalance: nat)
    | CallRemoveVote(signer: Account, voter: Account, r: RefIndex)
    | CallDelegate(who: Account, to: Account, conviction: Conviction, balance: nat, totalBalance: nat)
    | CallUndelegate(who: Account)
    | CallUnlock(voter: Account)
    | CallPropose(who: Account, proposal: Proposal, value: nat, canHold: bool)
    | CallSecond(who: Account, p: PropIndex, canHold: bool)
    | CallCancelProposal(p: PropIndex)
    | CallBlacklist(proposal: Proposal, maybeRef: Option<RefIndex>)
    | CallClearProposals
    | CallExternalPropose(proposal: Proposal, threshold: Threshold)
    | CallFastTrack(proposal: Proposal, period: nat, delay: nat, permitted: bool)
    | CallCancelReferendum(r: RefIndex)

  /** A failing dispatchable leaves storage as it was. */
  function OrUnchanged(s: State, r: Result<Book>): State {
    match r
    case Ok(b) => s.(book := b)
    case Err(_) => s
  }

  function OrQueue(s: State, r: Option<Q.Queue>): State {
    match r
    case Some(q) => s.(queue := q)
    case None => s
  }

  function CancelReferendum(s: State, r: RefIndex): State {
    s.(book := s.book.(refs := s.book.refs - {r}))
  }

  function Blacklist(s: State, proposal: Proposal, maybeRef: Option<RefIndex>): State {
    var s' := s.(queue := Q.BlacklistProposal(s.queue, proposal));
    match maybeRef
    case Some(r) =>
      if IsOngoing(s.book.refs, r) && s.book.refs[r].status.proposal == proposal then CancelReferendum(s', r) else s'
    case None => s'
  }

  function ExternalPropose(s: State, proposal: Proposal, threshold: Threshold): State {
    if threshold.SuperMajorityApprove? && (s.queue.nextExternal.Some? || Q.Blacklisted(s.queue, proposal, s.now)) then s
    else s.(queue := s.queue.(nextExternal := Some((proposal, threshold))))
  }

  function FastTrack(s: State, proposal: Proposal, period: nat, delay: nat, permitted: bool): State {
    match s.queue.nextExternal
    case None => s
    case Some((waiting, threshold)) =>
      if !permitted || period == 0 || threshold.SuperMajorityApprove? || waiting != proposal then s
      else InjectReferendum(s.(queue := s.queue.(nextExternal := None)), BlockAdd(s.now, period),
                            waiting, threshold, delay)
  }

  ghost function Step(c: Settings, s: State, call: Call): (s': State)
    requires c.launchPeriod > 0 && s.lowest <= s.count
    ensures s'.lowest <= s'.count
  {
    match call
    case NextBlock(electorate) => BeginBlock(c, s.(now := s.now + 1), electorate)
    case CallVote(who, r, vote, total) => OrUnchanged(s, TryVote(c.voting, s.book, who, r, vote, total))
    case CallRemoveVote(signer, voter, r) =>
      OrUnchanged(s, TryRemoveVote(c.voting, s.book, s.now, voter, r, signer == voter))
    case CallDelegate(who, to, conviction, balance, total) =>
      OrUnchanged(s, TryDelegate(c.voting, s.book, s.now, who, to, conviction, balance, total))
    case CallUndelegate(who) => OrUnchanged(s, TryUndelegate(c.voting, s.book, s.now, who))
    case CallUnlock(voter) => s.(book := UpdateLock(s.book, s.now, voter))
    case CallPropose(who, proposal, value, canHold) =>
      OrQueue(s, Q.Propose(c.queue, s.queue, s.now, who, proposal, value, canHold))
    case CallSecond(who, p, canHold) => OrQueue(s, Q.Second(c.queue, s.queue, who, p, canHold))
    case CallCancelProposal(p) => s.(queue := Q.CancelProposal(s.queue, p))
    case CallBlacklist(proposal, maybeRef) => Blacklist(s, proposal, maybeRef)
    case CallClearProposals => s.(queue := Q.ClearProposals(s.queue))
    case CallExternalPropose(proposal, threshold) => ExternalPropose(s, proposal, threshold)
    case CallFastTrack(proposal, period, delay, permitted) => FastTrack(s, proposal, period, delay, permitted)
    case CallCancelReferendum(r) => CancelReferendum(s, r)
  }

  // -------------------------------------------------------------- invariants

  /** Nothing below `LowestUnbaked` is ongoing, and every ongoing referendum is still to end. */
  ghost predicate ScheduleInv(s: State) {
    && s.lowest <= s.count
    && (forall r: nat :: r < s.lowest ==> !IsOngoing(s.book.refs, r))
    && (forall r :: IsOngoing(s.book.refs, r) ==> s.now < s.book.refs[r].status.end)
  }

  ghost predicate Inv(s: State) {
    BookInv(s.book, s.count) && ScheduleInv(s) && Q.QueueInv(s.queue)
  }

  /** The two no-saturation hypotheses: on capital and on block numbers. */
  ghost predicate InRange(s: State) {
    Funded(s.book.voting) && s.now < MAX_BLOCK
  }

  /** The state after running `calls` in order from `s`. */
  ghost function Exec(c: Settings, s: State, calls: seq<Call>): (s': State)
    requires c.launchPeriod > 0 && s.lowest <= s.count
    ensures s'.lowest <= s'.count
    decreases |calls|
  {
    if |calls| == 0 then s
    else Step(c, Exec(c, s, calls[..|calls| - 1]), calls[|calls| - 1])
  }

  /** No state along the run leaves the range of the arithmetic. */
  ghost predicate RunInRange(c: Settings, s: State, calls: seq<Call>)
    requires c.launchPeriod > 0 && s.lowest <= s.count
    decreases |calls|
  {
    InRange(Exec(c, s, calls)) && (|calls| > 0 ==> RunInRange(c, s, calls[..|calls| - 1]))
  }
}
