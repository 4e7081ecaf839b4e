/** Votes, convictions, tallies and locks of the democracy pallet. */
module DemocracyTypes {
  import opened Totals

  type Account = nat
  type RefIndex = nat
  type PropIndex = nat

  /** A proposal is identified by the hash of its call. */
  type Proposal = nat

  datatype Conviction = Unlocked | Locked1x | Locked2x | Locked3x | Locked4x | Locked5x | Locked6x {

    /** `capital` times the numeric value of the conviction. */
    function Times(capital: nat): nat {
      match this
      case Unlocked => 0
      case Locked1x => capital
      case Locked2x => 2 * capital
      case Locked3x => 3 * capital
      case Locked4x => 4 * capital
      case Locked5x => 5 * capital
      case Locked6x => 6 * capital
    }

    /** The numeric value of a conviction. */
    function Rank(): nat {
      match this
      case Unlocked => 0
      case Locked1x => 1
      case Locked2x => 2
      case Locked3x => 3
      case Locked4x => 4
      case Locked5x => 5
      case Locked6x => 6
    }

    /** The next stronger conviction. */
    function Next(): Conviction
      requires !Locked6x?
    {
      match this
      case Unlocked => Locked1x
      case Locked1x => Locked2x
      case Locked2x => Locked3x
      case Locked3x => Locked4x
      case Locked4x => Locked5x
      case Locked5x => Locked6x
    }

    function LockPeriods(): nat {
      match this
      case Unlocked => 0
      case Locked1x => 1
      case Locked2x => 2
      case Locked3x => 4
      case Locked4x => 8
      case Locked5x => 16
      case Locked6x => 32
    }

    /** The votes given by `capital`; whatever the conviction, never more than six per unit. */
    function Votes(capital: nat): (d: Delegations)
      ensures d.capital == capital
      ensures d.votes <= 6 * capital
    {
      Delegations(if Unlocked? then capital / 10 else Min(Times(capital), MAX_BALANCE), capital)
    }
  }

  datatype Delegations = Delegations(votes: nat, capital: nat) {
    function SaturatingAdd(o: Delegations): Delegations {
      Delegations(SatAdd(votes, o.votes), SatAdd(capital, o.capital))
    }

    function SaturatingSub(o: Delegations): Delegations {
      Delegations(SatSub(votes, o.votes), SatSub(capital, o.capital))
    }
  }

  const NO_DELEGATIONS := Delegations(0, 0)

  /** Ranks count the steps from no conviction. */
  lemma {:induction false} RanksCount(c: Conviction)
    ensures c.Rank() == 0 <==> c.Unlocked?
    ensures !c.Locked6x? ==> c.Next().Rank() == c.Rank() + 1
  {
  }

  /** The weakest lock gives one vote per unit, and every next conviction exactly one more, as long as
      the result is a balance. Without a lock ten units give one vote, rounded down. */
  lemma {:induction false} ConvictionAddsVotes(c: Conviction, capital: nat)
    ensures capital <= MAX_BALANCE ==> Locked1x.Votes(capital).votes == capital
    ensures !c.Unlocked? && !c.Locked6x? && 6 * capital <= MAX_BALANCE ==>
      c.Next().Votes(capital).votes == c.Votes(capital).votes + capital
    ensures var q := Unlocked.Votes(capital).votes; 10 * q <= capital < 10 * q + 10
  {
  }

  /** So a locked vote of rank k is worth k times its capital, or the largest balance if that is less. */
  lemma {:induction false} VotesByRank(c: Conviction, capital: nat)
    requires !c.Unlocked?
    ensures c.Votes(capital).votes == Min(c.Rank() * capital, MAX_BALANCE)
  {
  }

  /** No lock lasts no time, the weakest one period, and every next conviction twice as long. */
  lemma {:induction false} ConvictionDoublesLock(c: Conviction)
    ensures Unlocked.LockPeriods() == 0 && Locked1x.LockPeriods() == 1
    ensures !c.Unlocked? && !c.Locked6x? ==> c.Next().LockPeriods() == 2 * c.LockPeriods()
  {
  }

  datatype Vote = Vote(aye: bool, conviction: Conviction)

  datatype AccountVote =
    | Standard(vote: Vote, balance: nat)
    | Split(aye: nat, nay: nat)
  {
    /** How long, and how much, a vote stays locked after a referendum with outcome `approved`. */
    function LockedIf(approved: bool): Option<(nat, nat)> {
      if Standard? && vote.aye == approved then Some((vote.conviction.LockPeriods(), balance)) else None
    }

    function Balance(): nat {
      match this
      case Standard(_, balance) => balance
      case Split(aye, nay) => SatAdd(aye, nay)
    }
  }

  datatype Tally = Tally(ayes: nat, nays: nat, turnout: nat) {

    /** Add an account's own vote; `None` when a checked addition overflows. */
    function Add(v: AccountVote): Option<Tally> {
      var t := match v
        case Standard(vote, balance) =>
          var d := vote.conviction.Votes(balance);
          if vote.aye then Tally(ayes + d.votes, nays, turnout + d.capital)
          else Tally(ayes, nays + d.votes, turnout + d.capital)
        case Split(aye, nay) =>
          Tally(ayes + Unlocked.Votes(aye).votes, nays + Unlocked.Votes(nay).votes, turnout + aye + nay);
      if t.Representable() then Some(t) else None
    }

    /** Remove an account's own vote; `None` when a checked subtraction underflows. */
    function Remove(v: AccountVote): Option<Tally> {
      match v
      case Standard(vote, balance) =>
        var d := vote.conviction.Votes(balance);
        if turnout < d.capital then None
        else if vote.aye then
          if ayes < d.votes then None else Some(Tally(ayes - d.votes, nays, turnout - d.capital))
        else
          if nays < d.votes then None else Some(Tally(ayes, nays - d.votes, turnout - d.capital))
      case Split(aye, nay) =>
        var a, n := Unlocked.Votes(aye).votes, Unlocked.Votes(nay).votes;
        if turnout < aye + nay || ayes < a || nays < n then None
        else Some(Tally(ayes - a, nays - n, turnout - aye - nay))
    }

    function Increase(approve: bool, d: Delegations): Tally {
      if approve then Tally(SatAdd(ayes, d.votes), nays, SatAdd(turnout, d.capital))
      else Tally(ayes, SatAdd(nays, d.votes), SatAdd(turnout, d.capital))
    }

    function Reduce(approve: bool, d: Delegations): Tally {
      if approve then Tally(SatSub(ayes, d.votes), nays, SatSub(turnout, d.capital))
      else Tally(ayes, SatSub(nays, d.votes), SatSub(turnout, d.capital))
    }

    /** The tally update of `try_vote`: the vote itself, then the delegations behind it. */
    function Cast(v: AccountVote, behind: Delegations): Option<Tally> {
      match Add(v)
      case None => None
      case Some(t) => Some(if v.Standard? then t.Increase(v.vote.aye, behind) else t)
    }

    /** The tally update of `try_remove_vote` on an ongoing referendum. */
    function Uncast(v: AccountVote, behind: Delegations): Option<Tally> {
      match Remove(v)
      case None => None
      case Some(t) => Some(if v.Standard? then t.Reduce(v.vote.aye, behind) else t)
    }

    predicate Representable() {
      ayes <= MAX_BALANCE && nays <= MAX_BALANCE && turnout <= MAX_BALANCE
    }

    function Plus(o: Tally): Tally {
      Tally(ayes + o.ayes, nays + o.nays, turnout + o.turnout)
    }
  }

  const EMPTY_TALLY := Tally(0, 0, 0)

  /** What a vote is worth, in exact arithmetic: its own weight, and, for a standard vote, the
      delegations behind it on the same side. */
  function Worth(v: AccountVote, behind: Delegations): Tally {
    match v
    case Standard(vote, balance) =>
      var votes := vote.conviction.Votes(balance).votes + behind.votes;
      Tally(if vote.aye then votes else 0, if vote.aye then 0 else votes, balance + behind.capital)
    case Split(aye, nay) =>
      Tally(aye / 10, nay / 10, aye + nay)
  }

  /** Without overflow the piecewise checked and saturating updates add exactly the worth. */
  lemma {:induction false} CastAddsWorth(t: Tally, v: AccountVote, behind: Delegations)
    requires t.Plus(Worth(v, behind)).Representable()
    ensures t.Cast(v, behind) == Some(t.Plus(Worth(v, behind)))
  {
  }

  /** `Uncast` undoes `Cast`, and no subtraction in it fails or clamps. */
  lemma {:induction false} UncastRemovesWorth(t: Tally, v: AccountVote, behind: Delegations)
    ensures t.Plus(Worth(v, behind)).Uncast(v, behind) == Some(t)
  {
  }

  /** A lock kept for a reason that storage no longer records. */
  datatype PriorLock = PriorLock(until: nat, amount: nat) {
    function Accumulate(newUntil: nat, newAmount: nat): PriorLock {
      PriorLock(Max(until, newUntil), Max(amount, newAmount))
    }

    function Rejig(now: nat): PriorLock {
      if now >= until then NO_LOCK else this
    }
  }

  const NO_LOCK := PriorLock(0, 0)

  datatype Threshold = SuperMajorityApprove | SuperMajorityAgainst | SimpleMajority

  datatype Status = Status(end: nat, proposal: Proposal, threshold: Threshold, delay: nat, tally: Tally)

  datatype ReferendumInfo =
    | Ongoing(status: Status)
    | Finished(approved: bool, finishedAt: nat)
}
