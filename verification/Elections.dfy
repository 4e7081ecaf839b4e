/** The elections pallet: members, runners-up and candidates, their candidacy bonds, the prime, and
    what is reported to whoever follows the membership. */
module Elections {
  import opened Totals

  type Account = nat

  datatype Error =
    | UnableToVote | NoVotes | TooManyVotes | MaximumVotesExceeded | LowBalance | MustBeVoter | VotingPeriodNotEnded
    | DuplicatedCandidate | TooManyCandidates | MemberSubmit | RunnerUpSubmit | InsufficientCandidateFunds
    | NotMember | InvalidWitnessData | InvalidRenouncing | UnableToReleaseBond

  datatype Result<+T> = Ok(value: T) | Err(error: Error)

  datatype Config = Config(
    candidacyBond: nat, desiredMembers: nat, desiredRunnersUp: nat,
    maxCandidates: nat, maxVoters: nat, maxVotesPerVoter: nat, votingLockPeriod: nat)

  /** A member, a runner-up, or a candidate, who has no stake yet. */
  datatype SeatHolder = SeatHolder(who: Account, stake: nat, deposit: nat)

  datatype Voter = Voter(votes: seq<Account>, stake: nat, lockupTill: nat)

  /** One call of `change_members_sorted`. */
  datatype Report = Report(incoming: seq<Account>, outgoing: seq<Account>, members: seq<Account>)

  /** `initial` and `reports` are everything told to the receiver of membership changes, `prime`
      is the prime it holds. */
  datatype State = State(
    members: seq<SeatHolder>, runnersUp: seq<SeatHolder>, candidates: seq<SeatHolder>, rounds: nat,
    voting: map<Account, Voter>, held: map<Account, nat>,
    prime: Option<Account>, initial: seq<Account>, reports: seq<Report>)

  /** A winner of the sequential election, with its support as votes and as a balance. */
  datatype Winner = Winner(who: Account, support: nat, stake: nat)

  datatype Renouncing = Member | RunnerUp | Candidate(count: nat)

  // ------------------------------------------------------------------- lists

  function Ids(hs: seq<SeatHolder>): (ids: seq<Account>)
    ensures |ids| == |hs| && forall i :: 0 <= i < |hs| ==> ids[i] == hs[i].who
  {
    if |hs| == 0 then [] else Ids(hs[..|hs| - 1]) + [hs[|hs| - 1].who]
  }

  predicate Listed(hs: seq<SeatHolder>, who: Account) {
    exists i :: 0 <= i < |hs| && hs[i].who == who
  }

  /** The first position not before `who`, which is what a binary search of a sorted list yields. */
  function Slot(hs: seq<SeatHolder>, who: Account): (i: nat)
    ensures i <= |hs|
    ensures forall j :: 0 <= j < i ==> hs[j].who < who
    ensures i < |hs| ==> who <= hs[i].who
  {
    if |hs| == 0 then 0
    else
      var n := |hs| - 1;
      var i := Slot(hs[..n], who);
      if i < n then i else if hs[n].who < who then n + 1 else n
  }

  predicate Found(hs: seq<SeatHolder>, who: Account) {
    Slot(hs, who) < |hs| && hs[Slot(hs, who)].who == who
  }

  /** The position of `who` in a list that need not be sorted, its length if absent. */
  function Position(hs: seq<SeatHolder>, who: Account): (i: nat)
    ensures i <= |hs|
    ensures forall j :: 0 <= j < i ==> hs[j].who != who
    ensures i < |hs| ==> hs[i].who == who
  {
    if |hs| == 0 then 0
    else
      var n := |hs| - 1;
      var i := Position(hs[..n], who);
      if i < n then i else if hs[n].who == who then n else n + 1
  }

  function InsertAt(hs: seq<SeatHolder>, i: nat, h: SeatHolder): seq<SeatHolder>
    requires i <= |hs|
  {
    hs[..i] + [h] + hs[i..]
  }

  function RemoveAt(hs: seq<SeatHolder>, i: nat): seq<SeatHolder>
    requires i < |hs|
  {
    hs[..i] + hs[i + 1..]
  }

  function SortById(hs: seq<SeatHolder>): seq<SeatHolder> {
    if |hs| == 0 then []
    else
      var init, h := SortById(hs[..|hs| - 1]), hs[|hs| - 1];
      InsertAt(init, Slot(init, h.who), h)
  }

  function Reversed(hs: seq<SeatHolder>): seq<SeatHolder> {
    if |hs| == 0 then [] else [hs[|hs| - 1]] + Reversed(hs[..|hs| - 1])
  }

  /** Those of `xs` that are not in `ys`, in order. */
  function Minus(xs: seq<Account>, ys: seq<Account>): seq<Account> {
    if |xs| == 0 then []
    else
      var init, x := Minus(xs[..|xs| - 1], ys), xs[|xs| - 1];
      if x in ys then init else init + [x]
  }

  // --------------------------------------------------------- candidates come and go

  function SubmitCandidacy(c: Config, s: State, who: Account, claimed: nat, canHold: bool): Result<State> {
    if |s.candidates| > claimed then Err(InvalidWitnessData)
    else if |s.candidates| > c.maxCandidates then Err(TooManyCandidates)
    else if Found(s.candidates, who) then Err(DuplicatedCandidate)
    else if Found(s.members, who) then Err(MemberSubmit)
    else if Listed(s.runnersUp, who) then Err(RunnerUpSubmit)
    else if !canHold then Err(InsufficientCandidateFunds)
    else Ok(s.(held := s.held[who := At(s.held, who) + c.candidacyBond],
               candidates := InsertAt(s.candidates, Slot(s.candidates, who), SeatHolder(who, 0, c.candidacyBond))))
  }

  function Slash(held: map<Account, nat>, who: Account, amount: nat): map<Account, nat> {
    held[who := SatSub(At(held, who), amount)]
  }

  /** Report a change, which clears the prime at the receiver, then set the prime again. */
  function Tell(s: State, incoming: seq<Account>, outgoing: seq<Account>, prime: Option<Account>): State {
    s.(reports := s.reports + [Report(incoming, outgoing, Ids(s.members))], prime := prime)
  }

  /** The best runner-up, if any, becomes a member; whoever does is incoming. */
  function Promoted(members: seq<SeatHolder>, runnersUp: seq<SeatHolder>)
    : (seq<SeatHolder>, seq<SeatHolder>, seq<Account>)
  {
    if |runnersUp| == 0 then (members, runnersUp, [])
    else
      var n := |runnersUp| - 1;
      var next := runnersUp[n];
      var more := if Found(members, next.who) then members else InsertAt(members, Slot(members, next.who), next);
      (more, runnersUp[..n], [next.who])
  }

  /** The member at `i` leaves with its bond, and the best runner-up takes its place. */
  function Replaced(s: State, who: Account, i: nat): State
    requires i < |s.members|
  {
    var (members, runnersUp, incoming) := Promoted(RemoveAt(s.members, i), s.runnersUp);
    Tell(s.(held := Slash(s.held, who, s.members[i].deposit), members := members, runnersUp := runnersUp),
         incoming, [who], if s.prime == Some(who) then None else s.prime)
  }

  function RemoveAndReplace(s: State, who: Account, slash: bool): Result<State> {
    if !Found(s.members, who) then Err(NotMember)
    else
      var i := Slot(s.members, who);
      if !slash && At(s.held, who) < s.members[i].deposit then Err(UnableToReleaseBond)
      else Ok(Replaced(s, who, i))
  }

  function Renounce(s: State, who: Account, role: Renouncing): Result<State> {
    match role
    case Member =>
      var r := RemoveAndReplace(s, who, false);
      if r.Ok? then r else Err(InvalidRenouncing)
    case RunnerUp =>
      var i := Position(s.runnersUp, who);
      if i == |s.runnersUp| then Err(InvalidRenouncing)
      else if At(s.held, who) < s.runnersUp[i].deposit then Err(UnableToReleaseBond)
      else Ok(s.(runnersUp := RemoveAt(s.runnersUp, i), held := Slash(s.held, who, s.runnersUp[i].deposit)))
    case Candidate(count) =>
      if count < |s.candidates| then Err(InvalidWitnessData)
      else if !Found(s.candidates, who) then Err(InvalidRenouncing)
      else
        var i := Slot(s.candidates, who);
        if At(s.held, who) < s.candidates[i].deposit then Err(UnableToReleaseBond)
        else Ok(s.(candidates := RemoveAt(s.candidates, i), held := Slash(s.held, who, s.candidates[i].deposit)))
  }

  // ------------------------------------------------------------------- voting

  function VoterAt(s: State, who: Account): Voter {
    if who in s.voting then s.voting[who] else Voter([], 0, 0)
  }

  /** `total` is the voter's balance, `minimum` the existential deposit. */
  function Vote(c: Config, s: State, who: Account, votes: seq<Account>, value: nat, now: nat, total: nat, minimum: nat)
    : Result<State>
  {
    if |votes| > c.maxVotesPerVoter then Err(MaximumVotesExceeded)
    else if |votes| == 0 then Err(NoVotes)
    else
      var targets := |s.candidates| + |s.members| + |s.runnersUp|;
      if targets == 0 then Err(UnableToVote)
      else if |votes| > targets then Err(TooManyVotes)
      else if (if now < VoterAt(s, who).lockupTill then value < VoterAt(s, who).stake else value <= minimum)
      then Err(LowBalance)
      else Ok(s.(voting := s.voting[who := Voter(votes, Min(value, total), now + c.votingLockPeriod)]))
  }

  function RemoveVoter(s: State, who: Account, now: nat): Result<State> {
    if who !in s.voting then Err(MustBeVoter)
    else if now < s.voting[who].lockupTill then Err(VotingPeriodNotEnded)
    else Ok(s.(voting := s.voting - {who}))
  }

  // ----------------------------------------------------------------- the prime

  /** What one ballot gives `who`: its stake, weighted by how early it names them. */
  function Ballot(c: Config, v: Voter, who: Account, n: nat): nat
    requires n <= |v.votes|
  {
    if n == 0 then 0
    else Ballot(c, v, who, n - 1) + if v.votes[n - 1] == who then v.stake * SatSub(c.maxVotesPerVoter, n - 1) else 0
  }

  ghost function Ballots(c: Config, voting: map<Account, Voter>, who: Account): map<Account, nat> {
    map v | v in voting :: Ballot(c, voting[v], who, |voting[v].votes|)
  }

  /** The weighted approval of an account over all voters. */
  ghost function Approval(c: Config, voting: map<Account, Voter>, who: Account): nat {
    Min(Total(Ballots(c, voting, who)), MAX_BALANCE)
  }

  /** The index of the last highest score among the first `n`. */
  function LastMax(scores: seq<nat>, n: nat): (i: nat)
    requires 0 < n <= |scores|
    ensures i < n
    ensures forall j :: 0 <= j < n ==> scores[j] <= scores[i]
    ensures forall j :: i < j < n ==> scores[j] < scores[i]
  {
    if n == 1 then 0
    else
      var i := LastMax(scores, n - 1);
      if scores[i] <= scores[n - 1] then n - 1 else i
  }

  ghost function Approvals(c: Config, voting: map<Account, Voter>, hs: seq<SeatHolder>): (a: seq<nat>)
    ensures |a| == |hs| && forall i :: 0 <= i < |hs| ==> a[i] == Approval(c, voting, hs[i].who)
  {
    if |hs| == 0 then []
    else Approvals(c, voting, hs[..|hs| - 1]) + [Approval(c, voting, hs[|hs| - 1].who)]
  }

  ghost function Prime(c: Config, voting: map<Account, Voter>, members: seq<SeatHolder>): Option<Account> {
    if |members| == 0 then None
    else Some(members[LastMax(Approvals(c, voting, members), |members|)].who)
  }

  // -------------------------------------------------------------- the election

  /** Everyone standing for election: candidates, then members, then runners-up. */
  function Roll(s: State): seq<SeatHolder> {
    s.candidates + (s.members + s.runnersUp)
  }

  /** The recorded deposit, zero for an account that is not standing. */
  function DepositOf(roll: seq<SeatHolder>, who: Account): nat {
    if Position(roll, who) < |roll| then roll[Position(roll, who)].deposit else 0
  }

  /** The winners with backing, in order of election, with their recorded deposits. */
  function Seats(roll: seq<SeatHolder>, winners: seq<Winner>): seq<SeatHolder> {
    if |winners| == 0 then []
    else
      var init, w := Seats(roll, winners[..|winners| - 1]), winners[|winners| - 1];
      if w.support == 0 then init else init + [SeatHolder(w.who, w.stake, DepositOf(roll, w.who))]
  }

  /** Everyone standing without a seat is slashed. */
  function SlashLosers(held: map<Account, nat>, roll: seq<SeatHolder>, seats: seq<SeatHolder>): map<Account, nat> {
    if |roll| == 0 then held
    else
      var rest, h := SlashLosers(held, roll[..|roll| - 1], seats), roll[|roll| - 1];
      if Listed(seats, h.who) then rest else Slash(rest, h.who, h.deposit)
  }

  /** What the contract of the sequential election method promises about its winners. */
  ghost predicate IsOutcome(roll: seq<SeatHolder>, winners: seq<Winner>, seats: nat) {
    && |winners| <= seats
    && (forall i :: 0 <= i < |winners| ==> Listed(roll, winners[i].who))
    && (forall i, j :: 0 <= i < j < |winners| ==> winners[i].who != winners[j].who)
  }

  /** New seats and a new prime: the change is reported, the losers slashed, the candidates gone. */
  function NewTerm(s: State, members: seq<SeatHolder>, runnersUp: seq<SeatHolder>, prime: Option<Account>): State {
    s.(members := members, runnersUp := runnersUp, candidates := [], rounds := s.rounds + 1, prime := prime,
       held := SlashLosers(s.held, Roll(s), members + runnersUp),
       reports := s.reports + [Change(Ids(s.members), Ids(members))])
  }

  /** The difference between two memberships. */
  function Change(was: seq<Account>, members: seq<Account>): Report {
    Report(Minus(members, was), Minus(was, members), members)
  }

  ghost function Install(c: Config, s: State, winners: seq<Winner>): State {
    var seats := Seats(Roll(s), winners);
    var n := Min(c.desiredMembers, |seats|);
    var members := SortById(seats[..n]);
    NewTerm(s, members, Reversed(seats[n..]), Prime(c, s.voting, members))
  }

  /** `outcome` is the answer of the election method: its winners, or an error. */
  ghost function Phragmen(c: Config, s: State, outcome: Option<seq<Winner>>): State {
    if |Roll(s)| == 0 || |s.voting| > c.maxVoters || outcome.None? then s else Install(c, s, outcome.value)
  }

  ghost function RemoveMember(c: Config, s: State, who: Account, slash: bool, rerun: bool,
                              outcome: Option<seq<Winner>>): Result<State> {
    match RemoveAndReplace(s, who, slash)
    case Err(e) => Err(e)
    case Ok(s') => Ok(if rerun then Phragmen(c, s', outcome) else s')
  }

  // ------------------------------------------------------------------- genesis

  /** Members from the genesis configuration, with a vote for themselves and no deposit. `None`
      stands for a panic. */
  function Genesis(c: Config, list: seq<(Account, nat)>, balances: map<Account, nat>): Option<State> {
    if |list| > c.desiredMembers then None
    else
      match Seed(c, list, balances)
      case None => None
      case Some((members, voting)) =>
        Some(State(members, [], [], 0, voting, map[], None, Names(list), []))
  }

  function Names(list: seq<(Account, nat)>): (ids: seq<Account>)
    ensures |ids| == |list| && forall i :: 0 <= i < |list| ==> ids[i] == list[i].0
  {
    if |list| == 0 then [] else Names(list[..|list| - 1]) + [list[|list| - 1].0]
  }

  function Seed(c: Config, list: seq<(Account, nat)>, balances: map<Account, nat>)
    : Option<(seq<SeatHolder>, map<Account, Voter>)>
  {
    if |list| == 0 then Some(([], map[]))
    else
      var (who, stake) := list[|list| - 1];
      match Seed(c, list[..|list| - 1], balances)
      case None => None
      case Some((members, voting)) =>
        if At(balances, who) < stake || Found(members, who) then None
        else Some((InsertAt(members, Slot(members, who), SeatHolder(who, stake, 0)),
                   voting[who := Voter([who], stake, c.votingLockPeriod)]))
  }

  // ---------------------------------------------------------------- invariants

  /** How often an account is listed. */
  ghost function Count(hs: seq<SeatHolder>, a: Account): nat {
    if |hs| == 0 then 0 else Count(hs[..|hs| - 1], a) + if hs[|hs| - 1].who == a then 1 else 0
  }

  /** The deposits recorded for an account. */
  ghost function Deposits(hs: seq<SeatHolder>, a: Account): nat {
    if |hs| == 0 then 0 else Deposits(hs[..|hs| - 1], a) + if hs[|hs| - 1].who == a then hs[|hs| - 1].deposit else 0
  }

  ghost predicate Sorted(hs: seq<SeatHolder>) {
    forall i, j :: 0 <= i < j < |hs| ==> hs[i].who < hs[j].who
  }

  /** Nobody is listed twice, be it in one list or in two. */
  ghost predicate SeatsDisjoint(s: State) {
    forall a :: Count(Roll(s), a) <= 1
  }

  /** Every hold is the deposit recorded for the account. */
  ghost predicate BondsExact(s: State) {
    forall a :: At(s.held, a) == Deposits(Roll(s), a)
  }

  ghost predicate SizesOk(c: Config, s: State) {
    |s.members| <= c.desiredMembers && |s.runnersUp| <= c.desiredRunnersUp && |s.candidates| <= c.maxCandidates + 1
  }

  /** No ballot is so long that the weight of a position would underflow. */
  ghost predicate BallotsOk(c: Config, voting: map<Account, Voter>) {
    forall v :: v in voting ==> |voting[v].votes| <= Max(1, c.maxVotesPerVoter)
  }

  ghost function SetOf(xs: seq<Account>): set<Account> { set x | x in xs }

  /** Old and incoming together are new and outgoing together, and neither pair overlaps. */
  ghost predicate Balanced(was: seq<Account>, r: Report) {
    && SetOf(was) + SetOf(r.incoming) == SetOf(r.members) + SetOf(r.outgoing)
    && SetOf(was) !! SetOf(r.incoming) && SetOf(r.members) !! SetOf(r.outgoing)
  }

  /** The membership last told to the receiver. */
  function Told(initial: seq<Account>, reports: seq<Report>): seq<Account> {
    if |reports| == 0 then initial else reports[|reports| - 1].members
  }

  ghost predicate ReportsOk(initial: seq<Account>, reports: seq<Report>) {
    forall i :: 0 <= i < |reports| ==> Balanced(Told(initial, reports[..i]), reports[i])
  }

  ghost predicate InSync(s: State) {
    && ReportsOk(s.initial, s.reports)
    && SetOf(Told(s.initial, s.reports)) == SetOf(Ids(s.members))
    && (s.prime.Some? ==> Listed(s.members, s.prime.value))
  }

  ghost predicate Inv(c: Config, s: State) {
    && Sorted(s.members) && Sorted(s.candidates) && SeatsDisjoint(s) && BondsExact(s)
    && SizesOk(c, s) && BallotsOk(c, s.voting) && InSync(s)
  }
}
