/** What the linear-release pallet guarantees about holds: after one call, and along every run. */
module LinearReleaseTheorems {
  import opened Totals
  import opened Arithmetic
  import opened VestingSchedule
  import opened LinearRelease

  // ------------------------------------------------------ filtering schedules

  /** What the schedules an action takes out lock at block `n`. */
  function TakenOut(schedules: seq<VestingInfo>, action: Action, n: nat): nat {
    if |schedules| == 0 then 0
    else
      var k := |schedules| - 1;
      TakenOut(schedules[..k], action, n) + if action.ShouldRemove(k) then schedules[k].LockedAt(n) else 0
  }

  /** Filtering conserves what is locked, now and later: completed schedules never lock again. */
  lemma {:induction false} KeepConserves(schedules: seq<VestingInfo>, action: Action, now: nat, n: nat)
    requires now <= n
    ensures Locked(Keep(schedules, action, now), n) + TakenOut(schedules, action, n) == Locked(schedules, n)
  {
    if |schedules| == 0 {
    } else {
      var k := |schedules| - 1;
      KeepConserves(schedules[..k], action, now, n);
      LockedDecreases(schedules[k], now, n);
      LockedSnoc(Keep(schedules[..k], action, now), schedules[k], n);
    }
  }

  lemma {:induction false} LockedSnoc(schedules: seq<VestingInfo>, s: VestingInfo, n: nat)
    ensures Locked(schedules + [s], n) == Locked(schedules, n) + s.LockedAt(n)
  {
  }

  lemma {:induction false} TakenOutByMerge(schedules: seq<VestingInfo>, i: nat, j: nat, n: nat)
    requires i != j
    ensures TakenOut(schedules, Merge(i, j), n)
         == (if i < |schedules| then schedules[i].LockedAt(n) else 0)
           + (if j < |schedules| then schedules[j].LockedAt(n) else 0)
  {
    if |schedules| == 0 {
    } else {
      TakenOutByMerge(schedules[..|schedules| - 1], i, j, n);
    }
  }

  lemma {:induction false} TakenOutByRemove(schedules: seq<VestingInfo>, i: nat, n: nat)
    ensures TakenOut(schedules, Remove(i), n) == if i < |schedules| then schedules[i].LockedAt(n) else 0
  {
    if |schedules| == 0 {
    } else {
      TakenOutByRemove(schedules[..|schedules| - 1], i, n);
    }
  }

  lemma {:induction false} TakenOutByPassive(schedules: seq<VestingInfo>, n: nat)
    ensures TakenOut(schedules, Passive, n) == 0
  {
    if |schedules| == 0 {
    } else {
      TakenOutByPassive(schedules[..|schedules| - 1], n);
    }
  }

  /** What stays is exactly what the action leaves alone and what still locks something. */
  lemma {:induction false} KeepFilters(schedules: seq<VestingInfo>, action: Action, now: nat, s: VestingInfo)
    ensures s in Keep(schedules, action, now)
       <==> exists k :: 0 <= k < |schedules| && schedules[k] == s && !action.ShouldRemove(k) && s.LockedAt(now) > 0
  {
    if |schedules| == 0 {
    } else {
      var k := |schedules| - 1;
      KeepFilters(schedules[..k], action, now, s);
      assert forall j :: 0 <= j < k ==> schedules[..k][j] == schedules[j];
    }
  }

  lemma {:induction false} KeepIsShorter(schedules: seq<VestingInfo>, action: Action, now: nat)
    ensures |Keep(schedules, action, now)| <= |schedules|
  {
    if |schedules| == 0 {
    } else {
      KeepIsShorter(schedules[..|schedules| - 1], action, now);
    }
  }

  /** A merge makes room for the schedule it adds. */
  lemma {:induction false} MergeMakesRoom(schedules: seq<VestingInfo>, i: nat, j: nat, now: nat)
    requires i != j
    ensures var first, second := if i < |schedules| then 1 else 0, if j < |schedules| then 1 else 0;
            |Keep(schedules, Merge(i, j), now)| + first + second <= |schedules|
  {
    if |schedules| == 0 {
    } else {
      MergeMakesRoom(schedules[..|schedules| - 1], i, j, now);
    }
  }

  lemma {:induction false} KeepStaysLive(schedules: seq<VestingInfo>, action: Action, now: nat)
    requires AllValid(schedules)
    ensures AllValid(Keep(schedules, action, now)) && AllLive(Keep(schedules, action, now), now)
  {
    var kept := Keep(schedules, action, now);
    forall i | 0 <= i < |kept| ensures kept[i].IsValid() && kept[i].locked <= MAX_BALANCE && kept[i].LockedAt(now) > 0 {
      KeepFilters(schedules, action, now, kept[i]);
    }
  }

  lemma {:induction false} LiveLocksSomething(schedules: seq<VestingInfo>, now: nat)
    requires AllLive(schedules, now)
    ensures Locked(schedules, now) == 0 <==> schedules == []
  {
  }

  lemma {:induction false} LockedListDecreases(schedules: seq<VestingInfo>, m: nat, n: nat)
    requires m <= n
    ensures Locked(schedules, n) <= Locked(schedules, m)
  {
    if |schedules| == 0 {
    } else {
      LockedListDecreases(schedules[..|schedules| - 1], m, n);
      LockedDecreases(schedules[|schedules| - 1], m, n);
    }
  }

  lemma {:induction false} EachIsCovered(schedules: seq<VestingInfo>, i: nat, j: nat, n: nat)
    requires i < |schedules| && j < |schedules| && i != j
    ensures schedules[i].LockedAt(n) + schedules[j].LockedAt(n) <= Locked(schedules, n)
  {
    TakenOutByMerge(schedules, i, j, n);
    KeepConserves(schedules, Merge(i, j), n, n);
  }

  // ------------------------------------------------------- running an action

  /** A merge locks now exactly what the two schedules lock now, and stays a valid live schedule. */
  lemma {:induction false} MergedIsLive(now: nat, s1: VestingInfo, s2: VestingInfo)
    requires now < MAX_BALANCE
    requires s1.IsValid() && s1.locked <= MAX_BALANCE && s2.IsValid() && s2.locked <= MAX_BALANCE
    requires s1.LockedAt(now) + s2.LockedAt(now) <= MAX_BALANCE
    ensures var m := MergeVestingInfo(now, s1, s2);
            && LockedIn(m, now) == s1.LockedAt(now) + s2.LockedAt(now)
            && (m.Some? ==> m.value.IsValid() && m.value.locked <= MAX_BALANCE && m.value.LockedAt(now) > 0)
  {
    LockedUntilEnd(s1, now);
    LockedUntilEnd(s2, now);
  }

  /** Valid schedules whose total is a balance, and an action that does not merge one with itself. */
  ghost predicate Actionable(schedules: seq<VestingInfo>, action: Action, now: nat) {
    && now < MAX_BALANCE && AllValid(schedules) && Locked(schedules, now) <= MAX_BALANCE
    && (action.Merge? ==> action.index1 != action.index2)
  }

  /** The schedules left by an action lock exactly the reported total, which is zero only if none
      is left, and the action conserves what was locked except for a schedule it removes. */
  lemma {:induction false} ExecExact(schedules: seq<VestingInfo>, action: Action, now: nat)
    returns (rest: seq<VestingInfo>, total: nat)
    requires Actionable(schedules, action, now)
    requires ExecAction(schedules, action, now).Ok?
    ensures ExecAction(schedules, action, now) == Ok((rest, total))
    ensures total == Locked(rest, now) && (total == 0 <==> rest == [])
    ensures AllValid(rest) && AllLive(rest, now) && |rest| <= |schedules|
    ensures total == Locked(schedules, now) - if action.Remove? then TakenOut(schedules, action, now) else 0
  {
    rest, total := ExecAction(schedules, action, now).value.0, ExecAction(schedules, action, now).value.1;
    var kept := Keep(schedules, action, now);
    KeepConserves(schedules, action, now, now);
    KeepIsShorter(schedules, action, now);
    KeepStaysLive(schedules, action, now);
    LiveLocksSomething(kept, now);
    match action
    case Passive => TakenOutByPassive(schedules, now);
    case Remove(_) =>
    case Merge(i, j) => MergeExact(schedules, i, j, now); LiveLocksSomething(rest, now);
  }

  lemma {:induction false} MergeExact(schedules: seq<VestingInfo>, i: nat, j: nat, now: nat)
    requires now < MAX_BALANCE && AllValid(schedules) && Locked(schedules, now) <= MAX_BALANCE
    requires i != j && i < |schedules| && j < |schedules|
    ensures var (rest, total) := ExecAction(schedules, Merge(i, j), now).value;
            && total == Locked(rest, now) == Locked(schedules, now)
            && AllValid(rest) && AllLive(rest, now) && |rest| < |schedules|
  {
    var kept, m := Keep(schedules, Merge(i, j), now), MergeVestingInfo(now, schedules[i], schedules[j]);
    KeepConserves(schedules, Merge(i, j), now, now);
    KeepStaysLive(schedules, Merge(i, j), now);
    TakenOutByMerge(schedules, i, j, now);
    MergeMakesRoom(schedules, i, j, now);
    MergedIsLive(now, schedules[i], schedules[j]);
    if m.Some? { LockedSnoc(kept, m.value, now); }
  }

  // ----------------------------------------------------------- after one call

  ghost predicate AllLive(schedules: seq<VestingInfo>, now: nat) {
    forall i :: 0 <= i < |schedules| ==> schedules[i].LockedAt(now) > 0
  }

  /** Everything but one account's entry for one reason is as before. */
  ghost predicate OnlyTouches(v: Vault, v': Vault, key: Key) {
    && (forall k :: k != key ==> At(v'.held, k) == At(v.held, k))
    && (forall k :: k != key ==> (k in v'.vesting <==> k in v.vesting))
    && (forall k :: k != key && k in v.vesting ==> v'.vesting[k] == v.vesting[k])
  }

  lemma {:induction false} WriteExact(c: Config, v: Vault, key: Key, rest: seq<VestingInfo>, total: nat)
    returns (v': Vault)
    requires |rest| <= c.maxSchedules && (total == 0 <==> rest == []) && total <= At(v.held, key)
    ensures WriteVesting(c, v.vesting, key, rest) == Ok(v'.vesting) && WriteRelease(v.held, key, total) == v'.held
    ensures OnlyTouches(v, v', key) && SchedulesAt(v', key) == rest && At(v'.held, key) == total
    ensures key in v'.vesting <==> rest != []
  {
    v' := Vault(WriteVesting(c, v.vesting, key, rest).value, WriteRelease(v.held, key, total));
  }

  /** Writing what an action left: the hold becomes exactly what the schedules lock. */
  lemma {:induction false} SettleExact(c: Config, v: Vault, key: Key, schedules: seq<VestingInfo>, action: Action,
                                       now: nat)
    returns (v': Vault)
    requires now < MAX_BALANCE && AllValid(schedules) && |schedules| <= c.maxSchedules
    requires Locked(schedules, now) <= At(v.held, key) <= MAX_BALANCE
    requires action.Merge? ==> action.index1 != action.index2
    requires ExecAction(schedules, action, now).Ok?
    ensures Settle(c, v, key, schedules, action, now) == Ok(v')
    ensures Settled(v', key, now) && OnlyTouches(v, v', key)
    ensures |SchedulesAt(v', key)| <= c.maxSchedules && AllValid(SchedulesAt(v', key))
    ensures At(v'.held, key) == Locked(schedules, now) - if action.Remove? then TakenOut(schedules, action, now) else 0
    ensures SchedulesAt(v', key) == ExecAction(schedules, action, now).value.0
    ensures key in v'.vesting ==> v'.vesting[key] != []
  {
    var rest, total := ExecExact(schedules, action, now);
    v' := WriteExact(c, v, key, rest, total);
  }

  lemma {:induction false} TouchKeepsInv(c: Config, v: Vault, v': Vault, key: Key, now: nat)
    requires VaultInv(c, v, now) && OnlyTouches(v, v', key)
    requires Locked(SchedulesAt(v', key), now) <= At(v'.held, key) <= MAX_BALANCE
    requires |SchedulesAt(v', key)| <= c.maxSchedules && AllValid(SchedulesAt(v', key))
    requires key in v'.vesting ==> v'.vesting[key] != []
    ensures VaultInv(c, v', now)
  {
    forall k ensures KeyOk(c, v', k, now) {
      assert KeyOk(c, v, k, now);
      if k == key {
        assert k in v'.vesting ==> SchedulesAt(v', k) == v'.vesting[k];
      } else {
        assert At(v'.held, k) == At(v.held, k);
      }
    }
  }

  lemma {:induction false} InvIffCovered(c: Config, v: Vault, v': Vault, key: Key, now: nat)
    requires VaultInv(c, v, now) && OnlyTouches(v, v', key) && At(v'.held, key) <= MAX_BALANCE
    requires |SchedulesAt(v', key)| <= c.maxSchedules && AllValid(SchedulesAt(v', key))
    requires key in v'.vesting ==> v'.vesting[key] != []
    ensures VaultInv(c, v', now) <==> Locked(SchedulesAt(v', key), now) <= At(v'.held, key)
  {
    if Locked(SchedulesAt(v', key), now) <= At(v'.held, key) {
      TouchKeepsInv(c, v, v', key, now);
    } else {
      assert !KeyOk(c, v', key, now);
    }
  }

  /** Vesting releases exactly down to what is still locked; it fails only when nothing vests. */
  lemma {:induction false} VestSettles(c: Config, v: Vault, key: Key, now: nat)
    requires now < MAX_BALANCE && VaultInv(c, v, now)
    ensures DoVest(c, v, key, now).Ok? <==> key in v.vesting
    ensures key in v.vesting ==>
      var v' := DoVest(c, v, key, now).value;
      VaultInv(c, v', now) && Settled(v', key, now) && OnlyTouches(v, v', key)
      && At(v'.held, key) == Locked(v.vesting[key], now)
  {
    if key in v.vesting {
      SchedulesCovered(c, v, key, now);
      var v' := SettleExact(c, v, key, v.vesting[key], Passive, now);
      TouchKeepsInv(c, v, v', key, now);
    }
  }

  /** Merging releases what has vested and locks the rest as before; it fails only on an index out
      of bounds or when nothing vests. */
  lemma {:induction false} MergeSettles(c: Config, v: Vault, key: Key, i: nat, j: nat, now: nat)
    requires now < MAX_BALANCE && VaultInv(c, v, now) && i != j
    ensures MergeSchedules(c, v, key, i, j, now).Ok? <==> i < |SchedulesAt(v, key)| && j < |SchedulesAt(v, key)|
    ensures MergeSchedules(c, v, key, i, j, now).Ok? ==>
      var v' := MergeSchedules(c, v, key, i, j, now).value;
      VaultInv(c, v', now) && Settled(v', key, now) && OnlyTouches(v, v', key)
      && At(v'.held, key) == Locked(v.vesting[key], now)
  {
    if i < |SchedulesAt(v, key)| && j < |SchedulesAt(v, key)| {
      SchedulesCovered(c, v, key, now);
      var v' := SettleExact(c, v, key, v.vesting[key], Merge(i, j), now);
      TouchKeepsInv(c, v, v', key, now);
    }
  }

  /** Removing a schedule releases what it still locks and what has vested. An index out of bounds
      only vests. */
  lemma {:induction false} RemoveSettles(c: Config, v: Vault, key: Key, i: nat, now: nat)
    requires now < MAX_BALANCE && VaultInv(c, v, now)
    ensures RemoveSchedule(c, v, key, i, now).Ok? <==> key in v.vesting
    ensures key in v.vesting ==>
      var v' := RemoveSchedule(c, v, key, i, now).value;
      VaultInv(c, v', now) && Settled(v', key, now) && OnlyTouches(v, v', key)
      && var removed := if i < |v.vesting[key]| then v.vesting[key][i].LockedAt(now) else 0;
         At(v'.held, key) == Locked(v.vesting[key], now) - removed
  {
    if key in v.vesting {
      SchedulesCovered(c, v, key, now);
      var v' := SettleExact(c, v, key, v.vesting[key], Remove(i), now);
      TakenOutByRemove(v.vesting[key], i, now);
      TouchKeepsInv(c, v, v', key, now);
    }
  }

  lemma {:induction false} SchedulesCovered(c: Config, v: Vault, key: Key, now: nat)
    requires VaultInv(c, v, now)
    ensures AllValid(SchedulesAt(v, key)) && |SchedulesAt(v, key)| <= c.maxSchedules
    ensures Locked(SchedulesAt(v, key), now) <= At(v.held, key) <= MAX_BALANCE
    ensures key in v.vesting ==> SchedulesAt(v, key) == v.vesting[key] != []
  {
    assert KeyOk(c, v, key, now);
  }

  /** Setting a schedule that the hold covers together with the others. */
  lemma {:induction false} SetSettles(c: Config, v: Vault, key: Key, s: VestingInfo, now: nat)
    returns (v': Vault)
    requires now < MAX_BALANCE && s.IsValid() && s.locked <= MAX_BALANCE
    requires AllValid(SchedulesAt(v, key)) && |SchedulesAt(v, key)| < c.maxSchedules
    requires Locked(SchedulesAt(v, key), now) + s.LockedAt(now) <= At(v.held, key) <= MAX_BALANCE
    ensures SetReleaseSchedule(c, v, key, s, now) == Ok(v')
    ensures Settled(v', key, now) && OnlyTouches(v, v', key)
    ensures |SchedulesAt(v', key)| <= c.maxSchedules && AllValid(SchedulesAt(v', key))
    ensures At(v'.held, key) == Locked(SchedulesAt(v, key), now) + s.LockedAt(now)
    ensures key in v'.vesting ==> v'.vesting[key] != []
    ensures SchedulesAt(v', key) == Keep(SchedulesAt(v, key) + [s], Passive, now)
  {
    LockedSnoc(SchedulesAt(v, key), s, now);
    v' := SettleExact(c, v, key, SchedulesAt(v, key) + [s], Passive, now);
  }

  /** What is checked before the currency moves. */
  predicate TransferAllowed(c: Config, v: Vault, key: Key, s: VestingInfo, canTransfer: bool) {
    && c.minVestedTransfer <= s.locked && s.IsValid() && |SchedulesAt(v, key)| < c.maxSchedules
    && canTransfer && At(v.held, key) + s.locked <= MAX_BALANCE
  }

  lemma {:induction false} TransferUnfolds(c: Config, v: Vault, key: Key, s: VestingInfo, now: nat, canTransfer: bool)
    ensures DoVestedTransfer(c, v, key, s, now, canTransfer).Ok? <==> TransferAllowed(c, v, key, s, canTransfer)
    ensures TransferAllowed(c, v, key, s, canTransfer) ==>
      var moved := Moved(v, key, s.locked);
      var outcome := SetReleaseSchedule(c, moved, key, s, now);
      DoVestedTransfer(c, v, key, s, now, canTransfer) == Ok(if outcome.Ok? then outcome.value else moved)
  {
  }

  /** The ignored result in a vested transfer is always `Ok`: the transfer never stands without
      its schedule, and it fails only for the reasons checked up front. */
  lemma {:induction false} TransferSettles(c: Config, v: Vault, key: Key, s: VestingInfo, now: nat, canTransfer: bool)
    requires now < MAX_BALANCE && VaultInv(c, v, now)
    ensures DoVestedTransfer(c, v, key, s, now, canTransfer).Ok? <==> TransferAllowed(c, v, key, s, canTransfer)
    ensures TransferAllowed(c, v, key, s, canTransfer) ==>
      var v' := DoVestedTransfer(c, v, key, s, now, canTransfer).value;
      && SetReleaseSchedule(c, Moved(v, key, s.locked), key, s, now) == Ok(v')
      && VaultInv(c, v', now) && Settled(v', key, now) && OnlyTouches(v, v', key)
      && At(v'.held, key) == Locked(SchedulesAt(v, key), now) + s.LockedAt(now)
      && SchedulesAt(v', key) == Keep(SchedulesAt(v, key) + [s], Passive, now)
  {
    TransferUnfolds(c, v, key, s, now, canTransfer);
    if TransferAllowed(c, v, key, s, canTransfer) {
      var _ := MovedSettles(c, v, key, s, now);
    }
  }

  lemma {:induction false} MovedKeepsInv(c: Config, v: Vault, key: Key, amount: nat, now: nat)
    requires VaultInv(c, v, now) && At(v.held, key) + amount <= MAX_BALANCE
    ensures VaultInv(c, Moved(v, key, amount), now)
  {
    forall k ensures KeyOk(c, Moved(v, key, amount), k, now) {
      assert KeyOk(c, v, k, now);
    }
  }

  lemma {:induction false} MovedSettles(c: Config, v: Vault, key: Key, s: VestingInfo, now: nat)
    returns (v': Vault)
    requires now < MAX_BALANCE && VaultInv(c, v, now) && s.IsValid()
    requires |SchedulesAt(v, key)| < c.maxSchedules && At(v.held, key) + s.locked <= MAX_BALANCE
    ensures SetReleaseSchedule(c, Moved(v, key, s.locked), key, s, now) == Ok(v')
    ensures VaultInv(c, v', now) && Settled(v', key, now) && OnlyTouches(v, v', key)
    ensures At(v'.held, key) == Locked(SchedulesAt(v, key), now) + s.LockedAt(now)
    ensures SchedulesAt(v', key) == Keep(SchedulesAt(v, key) + [s], Passive, now)
  {
    var moved := Moved(v, key, s.locked);
    assert SchedulesAt(moved, key) == SchedulesAt(v, key);
    SchedulesCovered(c, v, key, now);
    LockedDecreases(s, now, now);
    v' := SetSettles(c, moved, key, s, now);
    assert OnlyTouches(v, v', key);
    assert VaultInv(c, v', now) by { TouchKeepsInv(c, v, v', key, now); }
  }

  /** Adding a schedule leaves the hold to the caller. The hold covers the schedules afterwards if
      and only if it covered them together with the new one before. */
  lemma {:induction false} AddKeepsCoverIff(c: Config, v: Vault, key: Key, s: VestingInfo, now: nat)
    requires now < MAX_BALANCE && VaultInv(c, v, now) && 0 < s.locked <= MAX_BALANCE
    requires AddReleaseSchedule(c, v, key, s, now).Ok?
    ensures var v' := AddReleaseSchedule(c, v, key, s, now).value;
            && OnlyTouches(v, v', key) && v'.held == v.held
            && SchedulesAt(v', key) == Keep(SchedulesAt(v, key) + [s], Passive, now)
            && (VaultInv(c, v', now) <==> Locked(SchedulesAt(v, key), now) + s.LockedAt(now) <= At(v.held, key))
  {
    var schedules := SchedulesAt(v, key) + [s];
    SchedulesCovered(c, v, key, now);
    LockedSnoc(SchedulesAt(v, key), s, now);
    PassiveLocks(schedules, now, now);
    AddedShape(c, v, key, s, now);
    InvIffCovered(c, v, AddReleaseSchedule(c, v, key, s, now).value, key, now);
  }

  lemma {:induction false} AddedShape(c: Config, v: Vault, key: Key, s: VestingInfo, now: nat)
    requires AllValid(SchedulesAt(v, key)) && 0 < s.locked <= MAX_BALANCE
    requires AddReleaseSchedule(c, v, key, s, now).Ok?
    ensures var v' := AddReleaseSchedule(c, v, key, s, now).value;
            && OnlyTouches(v, v', key) && v'.held == v.held
            && SchedulesAt(v', key) == Keep(SchedulesAt(v, key) + [s], Passive, now)
            && |SchedulesAt(v', key)| <= c.maxSchedules && AllValid(SchedulesAt(v', key))
            && (key in v'.vesting ==> v'.vesting[key] != [])
  {
    var rest := Keep(SchedulesAt(v, key) + [s], Passive, now);
    AddedWrites(c, v, key, s, now);
    var v' := v.(vesting := WriteVesting(c, v.vesting, key, rest).value);
    WrittenShape(c, v, key, rest);
    assert key in v'.vesting ==> v'.vesting[key] == SchedulesAt(v', key);
    assert AllValid(rest) by { AddedValid(SchedulesAt(v, key), s, now); }
  }

  lemma {:induction false} AddedValid(schedules: seq<VestingInfo>, s: VestingInfo, now: nat)
    requires AllValid(schedules) && s.IsValid() && s.locked <= MAX_BALANCE
    ensures AllValid(Keep(schedules + [s], Passive, now))
  {
    KeepStaysLive(schedules + [s], Passive, now);
  }

  lemma {:induction false} AddedWrites(c: Config, v: Vault, key: Key, s: VestingInfo, now: nat)
    requires s.locked > 0 && AddReleaseSchedule(c, v, key, s, now).Ok?
    ensures var written := WriteVesting(c, v.vesting, key, Keep(SchedulesAt(v, key) + [s], Passive, now));
            s.IsValid() && written.Ok? && AddReleaseSchedule(c, v, key, s, now) == Ok(v.(vesting := written.value))
  {
  }

  lemma {:induction false} WrittenShape(c: Config, v: Vault, key: Key, rest: seq<VestingInfo>)
    requires WriteVesting(c, v.vesting, key, rest).Ok?
    ensures var v' := v.(vesting := WriteVesting(c, v.vesting, key, rest).value);
            && OnlyTouches(v, v', key) && SchedulesAt(v', key) == rest && |rest| <= c.maxSchedules
            && (key in v'.vesting <==> rest != [])
  {
  }

  /** What setting a schedule leaves: the hold is lowered to what all schedules lock, if there is that
      much. It covers them, and then exactly, if and only if it covered them before. */
  ghost predicate SetLeaves(c: Config, v: Vault, v': Vault, key: Key, s: VestingInfo, now: nat) {
    var locked := Locked(SchedulesAt(v, key), now) + s.LockedAt(now);
    && OnlyTouches(v, v', key) && SchedulesAt(v', key) == Keep(SchedulesAt(v, key) + [s], Passive, now)
    && At(v'.held, key) == Min(At(v.held, key), locked)
    && (VaultInv(c, v', now) <==> locked <= At(v.held, key))
    && (locked <= At(v.held, key) ==> Settled(v', key, now))
  }

  lemma {:induction false} SetSettlesIff(c: Config, v: Vault, key: Key, s: VestingInfo, now: nat)
    returns (v': Vault)
    requires now < MAX_BALANCE && VaultInv(c, v, now) && s.IsValid() && s.locked <= MAX_BALANCE
    requires |SchedulesAt(v, key)| < c.maxSchedules
    ensures SetReleaseSchedule(c, v, key, s, now) == Ok(v') && SetLeaves(c, v, v', key, s, now)
  {
    if Locked(SchedulesAt(v, key), now) + s.LockedAt(now) <= At(v.held, key) {
      v' := SetCovered(c, v, key, s, now);
    } else {
      SchedulesCovered(c, v, key, now);
      v' := SetUncovered(c, v, key, s, now);
    }
  }

  lemma {:induction false} SetCovered(c: Config, v: Vault, key: Key, s: VestingInfo, now: nat)
    returns (v': Vault)
    requires now < MAX_BALANCE && VaultInv(c, v, now) && s.IsValid() && s.locked <= MAX_BALANCE
    requires |SchedulesAt(v, key)| < c.maxSchedules
    requires Locked(SchedulesAt(v, key), now) + s.LockedAt(now) <= At(v.held, key)
    ensures SetReleaseSchedule(c, v, key, s, now) == Ok(v') && SetLeaves(c, v, v', key, s, now)
  {
    SchedulesCovered(c, v, key, now);
    v' := SetSettles(c, v, key, s, now);
    CoveredLeaves(c, v, v', key, s, now);
  }

  lemma {:induction false} CoveredLeaves(c: Config, v: Vault, v': Vault, key: Key, s: VestingInfo, now: nat)
    requires VaultInv(c, v, now) && Settled(v', key, now) && OnlyTouches(v, v', key)
    requires Locked(SchedulesAt(v, key), now) + s.LockedAt(now) <= At(v.held, key)
    requires |SchedulesAt(v', key)| <= c.maxSchedules && AllValid(SchedulesAt(v', key))
    requires At(v'.held, key) == Locked(SchedulesAt(v, key), now) + s.LockedAt(now)
    requires key in v'.vesting ==> v'.vesting[key] != []
    requires SchedulesAt(v', key) == Keep(SchedulesAt(v, key) + [s], Passive, now)
    ensures SetLeaves(c, v, v', key, s, now)
  {
    assert KeyOk(c, v, key, now);
    TouchKeepsInv(c, v, v', key, now);
  }

  lemma {:induction false} SetUncovered(c: Config, v: Vault, key: Key, s: VestingInfo, now: nat)
    returns (v': Vault)
    requires AllValid(SchedulesAt(v, key)) && s.IsValid() && |SchedulesAt(v, key)| < c.maxSchedules
    requires At(v.held, key) < Locked(SchedulesAt(v, key), now) + s.LockedAt(now) && At(v.held, key) <= MAX_BALANCE
    ensures SetReleaseSchedule(c, v, key, s, now) == Ok(v') && SetLeaves(c, v, v', key, s, now)
  {
    var schedules := SchedulesAt(v, key) + [s];
    LockedSnoc(SchedulesAt(v, key), s, now);
    PassiveLocks(schedules, now, now);
    KeepIsShorter(schedules, Passive, now);
    v' := SetReleaseSchedule(c, v, key, s, now).value;
    assert SchedulesAt(v', key) == Keep(schedules, Passive, now);
    assert !KeyOk(c, v', key, now);
  }

  // ---------------------------------- only the last block of a series matters

  /** The vault after a call, which leaves it alone when it fails. */
  function Vested(c: Config, v: Vault, key: Key, now: nat): Vault {
    var r := DoVest(c, v, key, now);
    if r.Ok? then r.value else v
  }

  function VestedAt(c: Config, v: Vault, key: Key, blocks: seq<nat>): Vault {
    if |blocks| == 0 then v else Vested(c, VestedAt(c, v, key, blocks[..|blocks| - 1]), key, blocks[|blocks| - 1])
  }

  lemma {:induction false} KeepTwice(schedules: seq<VestingInfo>, m: nat, n: nat)
    requires m <= n
    ensures Keep(Keep(schedules, Passive, m), Passive, n) == Keep(schedules, Passive, n)
  {
    if |schedules| == 0 {
    } else {
      var k := |schedules| - 1;
      KeepTwice(schedules[..k], m, n);
      LockedDecreases(schedules[k], m, n);
      KeepSnoc(Keep(schedules[..k], Passive, m), schedules[k], n);
    }
  }

  lemma {:induction false} KeepSnoc(schedules: seq<VestingInfo>, s: VestingInfo, now: nat)
    ensures Keep(schedules + [s], Passive, now)
         == Keep(schedules, Passive, now) + if s.LockedAt(now) == 0 then [] else [s]
  {
  }

  lemma {:induction false} PassiveLocks(schedules: seq<VestingInfo>, m: nat, n: nat)
    requires m <= n
    ensures Locked(Keep(schedules, Passive, m), n) == Locked(schedules, n)
  {
    KeepConserves(schedules, Passive, m, n);
    TakenOutByPassive(schedules, n);
  }

  lemma {:induction false} ReleasedTwice(held: map<Key, nat>, key: Key, x: nat, y: nat)
    requires y <= x
    ensures WriteRelease(WriteRelease(held, key, x), key, y) == WriteRelease(held, key, y)
  {
  }

  lemma {:induction false} VestedUnfolds(c: Config, v: Vault, key: Key, now: nat)
    requires key in v.vesting
    ensures var kept := Keep(v.vesting[key], Passive, now);
            var total := Min(Locked(v.vesting[key], now), MAX_BALANCE);
            Vested(c, v, key, now) ==
              if |kept| > c.maxSchedules then v
              else Vault(if kept == [] then v.vesting - {key} else v.vesting[key := kept],
                         WriteRelease(v.held, key, total))
  {
    PassiveLocks(v.vesting[key], now, now);
  }

  lemma {:induction false} NoneKept(schedules: seq<VestingInfo>, now: nat)
    requires Keep(schedules, Passive, now) == []
    ensures Locked(schedules, now) == 0
  {
    PassiveLocks(schedules, now, now);
  }

  lemma {:induction false} KeptShrinks(schedules: seq<VestingInfo>, m: nat, n: nat)
    requires m <= n
    ensures |Keep(schedules, Passive, n)| <= |Keep(schedules, Passive, m)|
  {
    KeepTwice(schedules, m, n);
    KeepIsShorter(Keep(schedules, Passive, m), Passive, n);
  }

  /** Vesting at one block and then at a later one is vesting at the later one. */
  lemma {:induction false} VestTwice(c: Config, v: Vault, key: Key, m: nat, n: nat)
    requires m <= n
    ensures Vested(c, Vested(c, v, key, m), key, n) == Vested(c, v, key, n)
  {
    if key in v.vesting && |Keep(v.vesting[key], Passive, m)| <= c.maxSchedules {
      if Keep(v.vesting[key], Passive, m) == [] {
        VestNothingLeft(c, v, key, m, n);
      } else {
        VestSomeLeft(c, v, key, m, n);
      }
    }
  }

  lemma {:induction false} VestNothingLeft(c: Config, v: Vault, key: Key, m: nat, n: nat)
    requires m <= n && key in v.vesting && Keep(v.vesting[key], Passive, m) == []
    ensures Vested(c, Vested(c, v, key, m), key, n) == Vested(c, v, key, n)
  {
    var schedules := v.vesting[key];
    VestedUnfolds(c, v, key, m);
    VestedUnfolds(c, v, key, n);
    KeptShrinks(schedules, m, n);
    NoneKept(schedules, m);
    LockedListDecreases(schedules, m, n);
  }

  lemma {:induction false} VestSomeLeft(c: Config, v: Vault, key: Key, m: nat, n: nat)
    requires m <= n && key in v.vesting && 0 < |Keep(v.vesting[key], Passive, m)| <= c.maxSchedules
    ensures Vested(c, Vested(c, v, key, m), key, n) == Vested(c, v, key, n)
  {
    var schedules := v.vesting[key];
    var kept, total := Keep(schedules, Passive, m), Min(Locked(schedules, m), MAX_BALANCE);
    var w := Vault(v.vesting[key := kept], WriteRelease(v.held, key, total));
    assert Vested(c, v, key, m) == w by { VestedUnfolds(c, v, key, m); }
    KeptShrinks(schedules, m, n);
    KeepTwice(schedules, m, n);
    PassiveLocks(schedules, m, n);
    LockedListDecreases(schedules, m, n);
    VestedOver(c, v, w, key, kept, total, n);
  }

  /** Vesting where an earlier vesting has been written. */
  lemma {:induction false} VestedOver(c: Config, v: Vault, w: Vault, key: Key, kept: seq<VestingInfo>, total: nat,
                                      n: nat)
    requires key in v.vesting && w == Vault(v.vesting[key := kept], WriteRelease(v.held, key, total))
    requires Keep(kept, Passive, n) == Keep(v.vesting[key], Passive, n) && |Keep(kept, Passive, n)| <= c.maxSchedules
    requires Locked(kept, n) == Locked(v.vesting[key], n) && Min(Locked(kept, n), MAX_BALANCE) <= total
    ensures Vested(c, w, key, n) == Vested(c, v, key, n)
  {
    VestedUnfolds(c, w, key, n);
    VestedUnfolds(c, v, key, n);
    ReleasedTwice(v.held, key, total, Min(Locked(kept, n), MAX_BALANCE));
    assert v.vesting[key := kept] - {key} == v.vesting - {key};
  }

  ghost predicate Ascending(blocks: seq<nat>) {
    forall i, j :: 0 <= i < j < |blocks| ==> blocks[i] <= blocks[j]
  }

  /** Vesting at any series of blocks leaves what vesting at the last of them leaves. */
  lemma {:induction false} OnlyLastVestMatters(c: Config, v: Vault, key: Key, blocks: seq<nat>)
    requires |blocks| > 0 && Ascending(blocks)
    ensures VestedAt(c, v, key, blocks) == Vested(c, v, key, blocks[|blocks| - 1])
  {
    if |blocks| == 1 {
    } else {
      var init := blocks[..|blocks| - 1];
      OnlyLastVestMatters(c, v, key, init);
      VestTwice(c, v, key, init[|init| - 1], blocks[|blocks| - 1]);
    }
  }

  // ------------------------------------------------------------- every run

  datatype Op =
    | Advance(blocks: nat)
    | Vest(key: Key)
    | MergeOp(key: Key, i: nat, j: nat)
    | RemoveOp(key: Key, i: nat)
    | Transfer(key: Key, schedule: VestingInfo, canTransfer: bool)
    | Add(key: Key, schedule: VestingInfo)
    | Hold(key: Key, amount: nat)

  datatype World = World(vault: Vault, now: nat)

  function Or(w: World, r: Result<Vault>): World {
    if r.Ok? then w.(vault := r.value) else w
  }

  function Step(c: Config, w: World, op: Op): World {
    match op
    case Advance(blocks) => w.(now := w.now + blocks)
    case Vest(key) => Or(w, DoVest(c, w.vault, key, w.now))
    case MergeOp(key, i, j) => Or(w, MergeSchedules(c, w.vault, key, i, j, w.now))
    case RemoveOp(key, i) => Or(w, RemoveSchedule(c, w.vault, key, i, w.now))
    case Transfer(key, s, canTransfer) => Or(w, DoVestedTransfer(c, w.vault, key, s, w.now, canTransfer))
    case Add(key, s) => Or(w, AddReleaseSchedule(c, w.vault, key, s, w.now))
    case Hold(key, amount) => w.(vault := Moved(w.vault, key, amount))
  }

  /** What callers owe: representable blocks and holds, and a hold behind every schedule that is
      added without a transfer. */
  ghost predicate Allowed(w: World, op: Op) {
    match op
    case Advance(blocks) => w.now + blocks <= MAX_BLOCK
    case Transfer(key, s, _) =>
      s.start <= MAX_BLOCK && s.locked <= ISSUANCE && At(w.vault.held, key) + s.locked <= ISSUANCE
    case Add(key, s) =>
      && s.start <= MAX_BLOCK && s.locked <= ISSUANCE
      && Locked(SchedulesAt(w.vault, key), w.now) + s.LockedAt(w.now) <= At(w.vault.held, key)
    case Hold(key, amount) => At(w.vault.held, key) + amount <= ISSUANCE
    case _ => true
  }

  /** More than is ever issued: with it the end of no schedule saturates. */
  const ISSUANCE: nat := MAX_BALANCE - MAX_BLOCK - 1

  ghost predicate Modest(s: VestingInfo) {
    s.start <= MAX_BLOCK && s.locked <= ISSUANCE
  }

  ghost predicate WorldInv(c: Config, w: World) {
    && VaultInv(c, w.vault, w.now) && w.now <= MAX_BLOCK
    && (forall key :: At(w.vault.held, key) <= ISSUANCE)
    && (forall key :: AllModest(SchedulesAt(w.vault, key)))
  }

  ghost predicate AllModest(schedules: seq<VestingInfo>) {
    forall i :: 0 <= i < |schedules| ==> Modest(schedules[i])
  }

  lemma {:induction false} ModestFits(s: VestingInfo)
    requires Modest(s)
    ensures Fits(s)
  {
    if s.locked > 0 {
      DurationIsCeil(s);
      var p, d := s.PerBlock(), s.Duration();
      MulLe(1, p, d - 1);
      assert p * (d - 1) == (d - 1) * p;
    }
  }

  /** At every later block, at least as much stays locked under every key. */
  ghost predicate KeepsPromises(v: Vault, v': Vault, key: Key, now: nat) {
    forall n: nat :: now <= n ==> Locked(SchedulesAt(v, key), n) <= Locked(SchedulesAt(v', key), n)
  }

  lemma {:induction false} MergeKeepsPromises(schedules: seq<VestingInfo>, i: nat, j: nat, now: nat, n: nat)
    requires now <= n && now < MAX_BALANCE && i != j && i < |schedules| && j < |schedules|
    requires Fits(schedules[i]) && Fits(schedules[j]) && Locked(schedules, now) <= MAX_BALANCE
    ensures Locked(schedules, n) <= Locked(ExecAction(schedules, Merge(i, j), now).value.0, n)
  {
    var kept, m := Keep(schedules, Merge(i, j), now), MergeVestingInfo(now, schedules[i], schedules[j]);
    KeepConserves(schedules, Merge(i, j), now, n);
    TakenOutByMerge(schedules, i, j, n);
    EachIsCovered(schedules, i, j, now);
    MergeNeverReleasesEarlier(now, schedules[i], schedules[j], n);
    if m.Some? { LockedSnoc(kept, m.value, n); }
  }

  /** Where one of the two has ended, merging is only vesting: nothing changes about what is locked. */
  lemma {:induction false} MergeWithEndedConserves(schedules: seq<VestingInfo>, i: nat, j: nat, now: nat, n: nat)
    requires now <= n && now < MAX_BALANCE && i != j && i < |schedules| && j < |schedules|
    requires schedules[i].locked <= MAX_BALANCE && schedules[j].locked <= MAX_BALANCE
    requires schedules[i].EndingBlock() <= now || schedules[j].EndingBlock() <= now
    ensures Locked(ExecAction(schedules, Merge(i, j), now).value.0, n) == Locked(schedules, n)
  {
    var kept, m := Keep(schedules, Merge(i, j), now), MergeVestingInfo(now, schedules[i], schedules[j]);
    KeepConserves(schedules, Merge(i, j), now, n);
    TakenOutByMerge(schedules, i, j, n);
    MergeWithEnded(now, schedules[i], schedules[j], n);
    if m.Some? { LockedSnoc(kept, m.value, n); }
  }

  lemma {:induction false} KeepModest(schedules: seq<VestingInfo>, action: Action, now: nat)
    requires AllModest(schedules)
    ensures AllModest(Keep(schedules, action, now))
  {
    var kept := Keep(schedules, action, now);
    forall i | 0 <= i < |kept| ensures Modest(kept[i]) {
      KeepFilters(schedules, action, now, kept[i]);
    }
  }

  lemma {:induction false} ExecModest(schedules: seq<VestingInfo>, action: Action, now: nat)
    requires AllModest(schedules) && now <= MAX_BLOCK && Locked(schedules, now) <= ISSUANCE
    requires action.Merge? ==> action.index1 != action.index2
    requires ExecAction(schedules, action, now).Ok?
    ensures AllModest(ExecAction(schedules, action, now).value.0)
  {
    KeepModest(schedules, action, now);
    if action.Merge? {
      EachIsCovered(schedules, action.index1, action.index2, now);
    }
  }

  lemma {:induction false} TouchKeepsWorld(c: Config, w: World, v': Vault, key: Key)
    requires WorldInv(c, w) && VaultInv(c, v', w.now) && OnlyTouches(w.vault, v', key)
    requires At(v'.held, key) <= ISSUANCE && AllModest(SchedulesAt(v', key))
    ensures WorldInv(c, w.(vault := v'))
  {
    forall k ensures AllModest(SchedulesAt(v', k)) {
      if k != key { assert SchedulesAt(v', k) == SchedulesAt(w.vault, k); }
    }
    forall k ensures At(v'.held, k) <= ISSUANCE {
      if k != key { assert At(v'.held, k) == At(w.vault.held, k); }
    }
  }

  lemma {:induction false} SettleModest(c: Config, w: World, key: Key, action: Action)
    requires WorldInv(c, w) && key in w.vault.vesting
    requires action.Merge? ==> action.index1 != action.index2
    requires ExecAction(w.vault.vesting[key], action, w.now).Ok?
    ensures var r := Settle(c, w.vault, key, w.vault.vesting[key], action, w.now);
            r.Ok? && AllModest(SchedulesAt(r.value, key)) && At(r.value.held, key) <= ISSUANCE
  {
    SchedulesCovered(c, w.vault, key, w.now);
    assert SchedulesAt(w.vault, key) == w.vault.vesting[key];
    var v' := SettleExact(c, w.vault, key, w.vault.vesting[key], action, w.now);
    ExecModest(w.vault.vesting[key], action, w.now);
  }

  lemma {:induction false} NewModest(w: World, key: Key, s: VestingInfo)
    requires AllModest(SchedulesAt(w.vault, key)) && Modest(s)
    ensures AllModest(Keep(SchedulesAt(w.vault, key) + [s], Passive, w.now))
  {
    KeepModest(SchedulesAt(w.vault, key) + [s], Passive, w.now);
  }

  /** Every call keeps every hold covering what its schedules lock. */
  lemma {:induction false} StepKeepsWorld(c: Config, w: World, op: Op)
    requires WorldInv(c, w) && Allowed(w, op)
    ensures WorldInv(c, Step(c, w, op))
  {
    match op
    case Advance(blocks) => AdvanceKeepsWorld(c, w, blocks);
    case Vest(key) =>
      VestSettles(c, w.vault, key, w.now);
      if key in w.vault.vesting {
        SettleModest(c, w, key, Passive);
        TouchKeepsWorld(c, w, Step(c, w, op).vault, key);
      }
    case MergeOp(key, i, j) =>
      if i != j { MergeSettles(c, w.vault, key, i, j, w.now); }
      if i != j && MergeSchedules(c, w.vault, key, i, j, w.now).Ok? {
        SettleModest(c, w, key, Merge(i, j));
        TouchKeepsWorld(c, w, Step(c, w, op).vault, key);
      }
    case RemoveOp(key, i) =>
      RemoveSettles(c, w.vault, key, i, w.now);
      if key in w.vault.vesting {
        SettleModest(c, w, key, Remove(i));
        TouchKeepsWorld(c, w, Step(c, w, op).vault, key);
      }
    case Transfer(key, s, canTransfer) => TransferKeepsWorld(c, w, key, s, canTransfer);
    case Add(key, s) => AddKeepsWorld(c, w, key, s);
    case Hold(key, amount) => HoldKeepsWorld(c, w, key, amount);
  }

  lemma {:induction false} AdvanceKeepsWorld(c: Config, w: World, blocks: nat)
    requires WorldInv(c, w) && w.now + blocks <= MAX_BLOCK
    ensures WorldInv(c, w.(now := w.now + blocks))
  {
    var later := w.now + blocks;
    forall key ensures KeyOk(c, w.vault, key, later) {
      assert KeyOk(c, w.vault, key, w.now);
      if key in w.vault.vesting { LockedListDecreases(w.vault.vesting[key], w.now, later); }
    }
  }

  lemma {:induction false} TransferKeepsWorld(c: Config, w: World, key: Key, s: VestingInfo, canTransfer: bool)
    requires WorldInv(c, w) && Allowed(w, Transfer(key, s, canTransfer))
    ensures WorldInv(c, Step(c, w, Transfer(key, s, canTransfer)))
  {
    TransferSettles(c, w.vault, key, s, w.now, canTransfer);
    if TransferAllowed(c, w.vault, key, s, canTransfer) {
      NewModest(w, key, s);
      SchedulesCovered(c, w.vault, key, w.now);
      LockedDecreases(s, w.now, w.now);
      TouchKeepsWorld(c, w, DoVestedTransfer(c, w.vault, key, s, w.now, canTransfer).value, key);
    }
  }

  lemma {:induction false} AddKeepsWorld(c: Config, w: World, key: Key, s: VestingInfo)
    requires WorldInv(c, w) && Allowed(w, Add(key, s))
    ensures WorldInv(c, Step(c, w, Add(key, s)))
  {
    if s.locked > 0 && AddReleaseSchedule(c, w.vault, key, s, w.now).Ok? {
      NewModest(w, key, s);
      AddKeepsCoverIff(c, w.vault, key, s, w.now);
      TouchKeepsWorld(c, w, AddReleaseSchedule(c, w.vault, key, s, w.now).value, key);
    }
  }

  lemma {:induction false} HoldKeepsWorld(c: Config, w: World, key: Key, amount: nat)
    requires WorldInv(c, w) && At(w.vault.held, key) + amount <= ISSUANCE
    ensures WorldInv(c, w.(vault := Moved(w.vault, key, amount)))
  {
    var v' := Moved(w.vault, key, amount);
    SchedulesCovered(c, w.vault, key, w.now);
    assert SchedulesAt(v', key) == SchedulesAt(w.vault, key);
    TouchKeepsInv(c, w.vault, v', key, w.now);
    TouchKeepsWorld(c, w, v', key);
  }

  // ---------------------------------------------- nothing is released early

  lemma {:induction false} UntouchedKeepsPromises(v: Vault, v': Vault, touched: Key, key: Key, now: nat)
    requires OnlyTouches(v, v', touched) && key != touched
    ensures KeepsPromises(v, v', key, now)
  {
  }

  /** A list that is only filtered, possibly after adding schedules, locks no less later. */
  lemma {:induction false} AddedKeepsPromises(v: Vault, v': Vault, key: Key, s: VestingInfo, now: nat)
    requires SchedulesAt(v', key) == Keep(SchedulesAt(v, key) + [s], Passive, now)
    ensures KeepsPromises(v, v', key, now)
  {
    forall n: nat | now <= n ensures Locked(SchedulesAt(v, key), n) <= Locked(SchedulesAt(v', key), n) {
      PassiveLocks(SchedulesAt(v, key) + [s], now, n);
      LockedSnoc(SchedulesAt(v, key), s, n);
    }
  }

  /** Vesting changes nothing about what stays locked at any later block. */
  lemma {:induction false} VestKeepsPromises(c: Config, v: Vault, key: Key, now: nat, n: nat)
    requires now < MAX_BALANCE && VaultInv(c, v, now) && DoVest(c, v, key, now).Ok? && now <= n
    ensures Locked(SchedulesAt(DoVest(c, v, key, now).value, key), n) == Locked(SchedulesAt(v, key), n)
  {
    var schedules := v.vesting[key];
    SchedulesCovered(c, v, key, now);
    var v' := SettleExact(c, v, key, schedules, Passive, now);
    PassiveLocks(schedules, now, n);
  }

  lemma {:induction false} MergeOpKeepsPromises(c: Config, v: Vault, key: Key, i: nat, j: nat, now: nat)
    requires now < MAX_BALANCE && VaultInv(c, v, now) && i != j && MergeSchedules(c, v, key, i, j, now).Ok?
    requires i < |SchedulesAt(v, key)| && j < |SchedulesAt(v, key)|
    requires Fits(SchedulesAt(v, key)[i]) && Fits(SchedulesAt(v, key)[j])
    ensures KeepsPromises(v, MergeSchedules(c, v, key, i, j, now).value, key, now)
  {
    var schedules := v.vesting[key];
    SchedulesCovered(c, v, key, now);
    var v' := SettleExact(c, v, key, schedules, Merge(i, j), now);
    forall n: nat | now <= n ensures Locked(schedules, n) <= Locked(SchedulesAt(v', key), n) {
      MergeKeepsPromises(schedules, i, j, now, n);
    }
  }

  /** The same of the call. */
  lemma {:induction false} MergeOpWithEnded(c: Config, v: Vault, key: Key, i: nat, j: nat, now: nat, n: nat)
    requires now < MAX_BALANCE && VaultInv(c, v, now) && i != j && MergeSchedules(c, v, key, i, j, now).Ok?
    requires i < |SchedulesAt(v, key)| && j < |SchedulesAt(v, key)| && now <= n
    requires SchedulesAt(v, key)[i].EndingBlock() <= now || SchedulesAt(v, key)[j].EndingBlock() <= now
    ensures Locked(SchedulesAt(MergeSchedules(c, v, key, i, j, now).value, key), n) == Locked(SchedulesAt(v, key), n)
  {
    var schedules := v.vesting[key];
    SchedulesCovered(c, v, key, now);
    var v' := SettleExact(c, v, key, schedules, Merge(i, j), now);
    MergeWithEndedConserves(schedules, i, j, now, n);
  }

  lemma {:induction false} StepKeepsPromises(c: Config, w: World, op: Op, key: Key)
    requires WorldInv(c, w) && Allowed(w, op) && !(op.RemoveOp? && op.key == key)
    ensures KeepsPromises(w.vault, Step(c, w, op).vault, key, w.now)
  {
    match op
    case Advance(_) =>
    case Vest(k) =>
      VestSettles(c, w.vault, k, w.now);
      if k in w.vault.vesting {
        var v' := DoVest(c, w.vault, k, w.now).value;
        if k == key {
          forall n: nat | w.now <= n ensures Locked(SchedulesAt(w.vault, key), n) <= Locked(SchedulesAt(v', key), n) {
            VestKeepsPromises(c, w.vault, k, w.now, n);
          }
        } else {
          UntouchedKeepsPromises(w.vault, v', k, key, w.now);
        }
      }
    case MergeOp(k, i, j) =>
      if i != j && MergeSchedules(c, w.vault, k, i, j, w.now).Ok? {
        MergeSettles(c, w.vault, k, i, j, w.now);
        if k == key {
          assert AllModest(SchedulesAt(w.vault, k));
          ModestFits(SchedulesAt(w.vault, k)[i]);
          ModestFits(SchedulesAt(w.vault, k)[j]);
          MergeOpKeepsPromises(c, w.vault, k, i, j, w.now);
        } else {
          UntouchedKeepsPromises(w.vault, MergeSchedules(c, w.vault, k, i, j, w.now).value, k, key, w.now);
        }
      }
    case RemoveOp(k, i) =>
      RemoveSettles(c, w.vault, k, i, w.now);
      if k in w.vault.vesting {
        UntouchedKeepsPromises(w.vault, RemoveSchedule(c, w.vault, k, i, w.now).value, k, key, w.now);
      }
    case Transfer(k, s, canTransfer) =>
      TransferSettles(c, w.vault, k, s, w.now, canTransfer);
      if TransferAllowed(c, w.vault, k, s, canTransfer) {
        var v' := DoVestedTransfer(c, w.vault, k, s, w.now, canTransfer).value;
        if k == key {
          AddedKeepsPromises(w.vault, v', k, s, w.now);
        } else {
          UntouchedKeepsPromises(w.vault, v', k, key, w.now);
        }
      }
    case Add(k, s) =>
      if s.locked > 0 && AddReleaseSchedule(c, w.vault, k, s, w.now).Ok? {
        AddKeepsCoverIff(c, w.vault, k, s, w.now);
        var v' := AddReleaseSchedule(c, w.vault, k, s, w.now).value;
        if k == key {
          AddedKeepsPromises(w.vault, v', k, s, w.now);
        } else {
          UntouchedKeepsPromises(w.vault, v', k, key, w.now);
        }
      }
    case Hold(_, _) => assert SchedulesAt(Step(c, w, op).vault, key) == SchedulesAt(w.vault, key);
  }

  function Exec(c: Config, w: World, ops: seq<Op>): World {
    if |ops| == 0 then w else Step(c, Exec(c, w, ops[..|ops| - 1]), ops[|ops| - 1])
  }

  ghost predicate RunAllowed(c: Config, w: World, ops: seq<Op>) {
    |ops| > 0 ==> RunAllowed(c, w, ops[..|ops| - 1]) && Allowed(Exec(c, w, ops[..|ops| - 1]), ops[|ops| - 1])
  }

  /** In every reachable state every hold covers what its schedules still lock. */
  lemma {:induction false} RunKeepsWorld(c: Config, w: World, ops: seq<Op>)
    requires WorldInv(c, w) && RunAllowed(c, w, ops)
    ensures WorldInv(c, Exec(c, w, ops)) && w.now <= Exec(c, w, ops).now
  {
    if |ops| == 0 {
    } else {
      RunKeepsWorld(c, w, ops[..|ops| - 1]);
      StepKeepsWorld(c, Exec(c, w, ops[..|ops| - 1]), ops[|ops| - 1]);
      StepKeepsNow(c, Exec(c, w, ops[..|ops| - 1]), ops[|ops| - 1]);
    }
  }

  lemma {:induction false} StepKeepsNow(c: Config, w: World, op: Op)
    ensures w.now <= Step(c, w, op).now
  {
  }

  lemma {:induction false} ReachableWorld(c: Config, ops: seq<Op>)
    requires RunAllowed(c, World(EMPTY_VAULT, 0), ops)
    ensures WorldInv(c, Exec(c, World(EMPTY_VAULT, 0), ops))
  {
    RunKeepsWorld(c, World(EMPTY_VAULT, 0), ops);
  }

  lemma {:induction false} RunKeepsPromises(c: Config, w: World, ops: seq<Op>, key: Key, n: nat)
    requires WorldInv(c, w) && RunAllowed(c, w, ops)
    requires forall i :: 0 <= i < |ops| ==> !(ops[i].RemoveOp? && ops[i].key == key)
    requires Exec(c, w, ops).now <= n
    ensures Locked(SchedulesAt(w.vault, key), n) <= Locked(SchedulesAt(Exec(c, w, ops).vault, key), n)
  {
    if |ops| == 0 {
    } else {
      var init, last := ops[..|ops| - 1], ops[|ops| - 1];
      var u := Exec(c, w, init);
      StepKeepsNow(c, u, last);
      RunKeepsWorld(c, w, init);
      RunKeepsPromises(c, w, init, key, n);
      StepKeepsPromises(c, u, last, key);
      assert Locked(SchedulesAt(u.vault, key), n) <= Locked(SchedulesAt(Step(c, u, last).vault, key), n);
    }
  }

  /** Nothing scheduled is released early, whatever calls follow: until a schedule of the account
      is removed, the hold covers what the present schedules lock at that later block. */
  lemma {:induction false} NothingReleasedEarly(c: Config, w: World, ops: seq<Op>, key: Key)
    requires WorldInv(c, w) && RunAllowed(c, w, ops)
    requires forall i :: 0 <= i < |ops| ==> !(ops[i].RemoveOp? && ops[i].key == key)
    ensures Locked(SchedulesAt(w.vault, key), Exec(c, w, ops).now) <= At(Exec(c, w, ops).vault.held, key)
  {
    RunKeepsWorld(c, w, ops);
    RunKeepsPromises(c, w, ops, key, Exec(c, w, ops).now);
    SchedulesCovered(c, Exec(c, w, ops).vault, key, Exec(c, w, ops).now);
  }
}
