/** The linear-release pallet: schedules per account and hold reason, released against a hold. */
module LinearRelease {
  import opened Totals
  import opened VestingSchedule

  type Account = nat
  type Reason = nat

  /** `Vesting` and the holds are keyed by account and hold reason. */
  type Key = (Account, Reason)

  datatype Error =
    | NotVesting | AtMaxVestingSchedules | AmountLow | ScheduleIndexOutOfBounds | InvalidScheduleParams
    | CurrencyError

  datatype Result<+T> = Ok(value: T) | Err(error: Error)

  datatype Config = Config(maxSchedules: nat, minVestedTransfer: nat)

  datatype Action = Passive | Remove(index: nat) | Merge(index1: nat, index2: nat) {
    predicate ShouldRemove(i: nat) {
      match this
      case Passive => false
      case Remove(index) => index == i
      case Merge(index1, index2) => index1 == i || index2 == i
    }
  }

  datatype Vault = Vault(vesting: map<Key, seq<VestingInfo>>, held: map<Key, nat>)

  const EMPTY_VAULT := Vault(map[], map[])

  // ---------------------------------------------------------------- the steps

  /** The schedules an action leaves alone and that still lock something. */
  function Keep(schedules: seq<VestingInfo>, action: Action, now: nat): seq<VestingInfo> {
    if |schedules| == 0 then []
    else
      var n := |schedules| - 1;
      var init := Keep(schedules[..n], action, now);
      if action.ShouldRemove(n) || schedules[n].LockedAt(now) == 0 then init else init + [schedules[n]]
  }

  /** What schedules lock at a block, in exact arithmetic. */
  function Locked(schedules: seq<VestingInfo>, now: nat): nat {
    if |schedules| == 0 then 0 else Locked(schedules[..|schedules| - 1], now) + schedules[|schedules| - 1].LockedAt(now)
  }

  /** `report_schedule_updates`: what is kept, and a saturating total of what it locks. */
  function Report(schedules: seq<VestingInfo>, action: Action, now: nat): (seq<VestingInfo>, nat) {
    var kept := Keep(schedules, action, now);
    (kept, Min(Locked(kept, now), MAX_BALANCE))
  }

  function ExecAction(schedules: seq<VestingInfo>, action: Action, now: nat): Result<(seq<VestingInfo>, nat)> {
    var (kept, total) := Report(schedules, action, now);
    match action
    case Merge(i, j) =>
      if i >= |schedules| || j >= |schedules| then Err(ScheduleIndexOutOfBounds)
      else (match MergeVestingInfo(now, schedules[i], schedules[j])
        case None => Ok((kept, total))
        case Some(m) => Ok((kept + [m], SatAdd(total, m.LockedAt(now)))))
    case _ => Ok((kept, total))
  }

  /** Release down to `total`, or everything when nothing is locked any more. */
  function WriteRelease(held: map<Key, nat>, key: Key, total: nat): map<Key, nat> {
    if total == 0 then held[key := 0]
    else held[key := At(held, key) - SatSub(At(held, key), total)]
  }

  function WriteVesting(c: Config, vesting: map<Key, seq<VestingInfo>>, key: Key, schedules: seq<VestingInfo>)
    : Result<map<Key, seq<VestingInfo>>>
  {
    if |schedules| > c.maxSchedules then Err(AtMaxVestingSchedules)
    else if |schedules| == 0 then Ok(vesting - {key})
    else Ok(vesting[key := schedules])
  }

  /** Run an action on the given schedules, then write schedules and hold. */
  function Settle(c: Config, v: Vault, key: Key, schedules: seq<VestingInfo>, action: Action, now: nat): Result<Vault> {
    match ExecAction(schedules, action, now)
    case Err(e) => Err(e)
    case Ok((rest, total)) =>
      match WriteVesting(c, v.vesting, key, rest)
      case Err(e) => Err(e)
      case Ok(vesting) => Ok(Vault(vesting, WriteRelease(v.held, key, total)))
  }

  function SchedulesAt(v: Vault, key: Key): seq<VestingInfo> {
    if key in v.vesting then v.vesting[key] else []
  }

  function DoVest(c: Config, v: Vault, key: Key, now: nat): Result<Vault> {
    if key !in v.vesting then Err(NotVesting) else Settle(c, v, key, v.vesting[key], Passive, now)
  }

  /** An index beyond the end removes nothing and only vests. */
  function RemoveSchedule(c: Config, v: Vault, key: Key, index: nat, now: nat): Result<Vault> {
    if key !in v.vesting then Err(NotVesting) else Settle(c, v, key, v.vesting[key], Remove(index), now)
  }

  function MergeSchedules(c: Config, v: Vault, key: Key, i: nat, j: nat, now: nat): Result<Vault> {
    if i == j then Ok(v)
    else if key !in v.vesting then Err(NotVesting)
    else Settle(c, v, key, v.vesting[key], Merge(i, j), now)
  }

  function SetReleaseSchedule(c: Config, v: Vault, key: Key, s: VestingInfo, now: nat): Result<Vault> {
    if s.locked == 0 then Ok(v)
    else if !s.IsValid() then Err(InvalidScheduleParams)
    else if |SchedulesAt(v, key)| >= c.maxSchedules then Err(AtMaxVestingSchedules)
    else Settle(c, v, key, SchedulesAt(v, key) + [s], Passive, now)
  }

  /** Like `SetReleaseSchedule`, but the hold is left to the caller. */
  function AddReleaseSchedule(c: Config, v: Vault, key: Key, s: VestingInfo, now: nat): Result<Vault> {
    if s.locked == 0 then Ok(v)
    else if !s.IsValid() then Err(InvalidScheduleParams)
    else if |SchedulesAt(v, key)| >= c.maxSchedules then Err(AtMaxVestingSchedules)
    else
      match ExecAction(SchedulesAt(v, key) + [s], Passive, now)
      case Err(e) => Err(e)
      case Ok((rest, _)) =>
        match WriteVesting(c, v.vesting, key, rest)
        case Err(e) => Err(e)
        case Ok(vesting) => Ok(v.(vesting := vesting))
  }

  /** The transferred amount, on hold at the target. */
  function Moved(v: Vault, key: Key, amount: nat): Vault {
    v.(held := v.held[key := At(v.held, key) + amount])
  }

  /** `canTransfer` says whether the currency moves and holds the amount. The result of setting the
      schedule is ignored: on an error the transfer stands and nothing is scheduled. */
  function DoVestedTransfer(c: Config, v: Vault, key: Key, s: VestingInfo, now: nat, canTransfer: bool): Result<Vault> {
    if s.locked < c.minVestedTransfer then Err(AmountLow)
    else if !s.IsValid() then Err(InvalidScheduleParams)
    else if |SchedulesAt(v, key)| >= c.maxSchedules then Err(AtMaxVestingSchedules)
    else if !canTransfer || At(v.held, key) + s.locked > MAX_BALANCE then Err(CurrencyError)
    else
      var moved := Moved(v, key, s.locked);
      match SetReleaseSchedule(c, moved, key, VestingInfo(s.locked, s.PerBlock(), s.start), now)
      case Ok(v') => Ok(v')
      case Err(_) => Ok(moved)
  }

  // ------------------------------------------------------------- invariants

  ghost predicate AllValid(schedules: seq<VestingInfo>) {
    forall i :: 0 <= i < |schedules| ==> schedules[i].IsValid() && schedules[i].locked <= MAX_BALANCE
  }

  /** A stored list is non-empty, bounded and valid, and the hold covers what it locks. */
  ghost predicate KeyOk(c: Config, v: Vault, key: Key, now: nat) {
    && (key in v.vesting ==>
          && 0 < |v.vesting[key]| <= c.maxSchedules && AllValid(v.vesting[key])
          && Locked(v.vesting[key], now) <= At(v.held, key))
    && At(v.held, key) <= MAX_BALANCE
  }

  ghost predicate VaultInv(c: Config, v: Vault, now: nat) {
    forall key :: KeyOk(c, v, key, now)
  }

  /** The hold is exactly what the stored schedules lock, and nothing is stored that locks nothing. */
  ghost predicate Settled(v: Vault, key: Key, now: nat) {
    && At(v.held, key) == Locked(SchedulesAt(v, key), now)
    && (At(v.held, key) == 0 <==> key !in v.vesting)
    && (forall i :: 0 <= i < |SchedulesAt(v, key)| ==> SchedulesAt(v, key)[i].LockedAt(now) > 0)
  }
}
