/** The linear-release pallet over its storage, proved against the functions of `LinearRelease`. */
module LinearReleasePallet {
  import opened Totals
  import opened VestingSchedule
  import LR = LinearRelease
  import opened LinearReleaseTheorems

  /** The outcome of a call is `expected`; a failing one leaves the storage alone. */
  ghost predicate Outcome(r: LR.Result<()>, before: LR.Vault, after: LR.Vault, expected: LR.Result<LR.Vault>) {
    match r
    case Ok(_) => expected == LR.Ok(after)
    case Err(e) => expected == LR.Err(e) && after == before
  }

  /** One account's entry for one reason is settled with the given hold, and nothing else has moved. */
  ghost predicate SettledWith(before: LR.Vault, after: LR.Vault, key: LR.Key, now: nat, hold: nat) {
    OnlyTouches(before, after, key) && LR.Settled(after, key, now) && At(after.held, key) == hold
  }

  class Pallet {
    const config: LR.Config
    var vesting: map<LR.Key, seq<VestingInfo>>
    var held: map<LR.Key, nat>
    var now: nat

    ghost function View(): LR.Vault
      reads this
    {
      LR.Vault(vesting, held)
    }

    /** Stored lists are non-empty, bounded and valid, and every hold covers what they lock. */
    ghost predicate Valid()
      reads this
    {
      now < MAX_BALANCE && LR.VaultInv(config, View(), now)
    }

    constructor (config: LR.Config)
      ensures Valid()
      ensures this.config == config && View() == LR.EMPTY_VAULT && now == 0
    {
      this.config := config;
      vesting, held, now := map[], map[], 0;
    }

    /** Filter out the schedules that the action takes out or that are completed, adding up what
        the others lock. */
    method ReportScheduleUpdates(schedules: seq<VestingInfo>, action: LR.Action)
      returns (filtered: seq<VestingInfo>, total: nat)
      ensures (filtered, total) == LR.Report(schedules, action, now)
    {
      filtered, total := [], 0;
      var i := 0;
      while i < |schedules|
        invariant 0 <= i <= |schedules|
        invariant filtered == LR.Keep(schedules[..i], action, now)
        invariant total == Min(LR.Locked(filtered, now), MAX_BALANCE)
      {
        ghost var before := filtered;
        if !action.ShouldRemove(i) {
          var lockedNow := schedules[i].LockedAt(now);
          if lockedNow != 0 {
            total := SatAdd(total, lockedNow);
            filtered := filtered + [schedules[i]];
            assert filtered[..|before|] == before;
          }
        }
        assert schedules[..i + 1][..i] == schedules[..i];
        i := i + 1;
      }
      assert schedules[..i] == schedules;
    }

    /** The indices of a merge refer to the list before filtering. What is left locks exactly the
        reported total, which is zero only when nothing is left, and is what was locked before except
        for a schedule that is removed. */
    method ExecAction(schedules: seq<VestingInfo>, action: LR.Action)
      returns (r: LR.Result<(seq<VestingInfo>, nat)>)
      ensures r == LR.ExecAction(schedules, action, now)
      ensures r.Err? <==> action.Merge? && (action.index1 >= |schedules| || action.index2 >= |schedules|)
      ensures r.Ok? && Actionable(schedules, action, now) ==>
        var (rest, total) := r.value;
        && total == LR.Locked(rest, now) && (total == 0 <==> rest == []) && AllLive(rest, now)
        && total == LR.Locked(schedules, now) - if action.Remove? then TakenOut(schedules, action, now) else 0
    {
      match action {
        case Merge(i, j) =>
          if i >= |schedules| || j >= |schedules| { return LR.Err(LR.ScheduleIndexOutOfBounds); }
          var rest, locked := ReportScheduleUpdates(schedules, action);
          var merged := MergeVestingInfo(now, schedules[i], schedules[j]);
          if merged.Some? {
            rest := rest + [merged.value];
            locked := SatAdd(locked, merged.value.LockedAt(now));
          }
          r := LR.Ok((rest, locked));
        case _ =>
          var rest, locked := ReportScheduleUpdates(schedules, action);
          r := LR.Ok((rest, locked));
      }
      if Actionable(schedules, action, now) {
        var _, _ := ExecExact(schedules, action, now);
      }
    }

    /** The hold ends up at the total, unless it was lower already; no other hold moves. */
    method WriteRelease(key: LR.Key, total: nat)
      modifies this`held
      ensures held == LR.WriteRelease(old(held), key, total)
      ensures At(held, key) == Min(At(old(held), key), total)
      ensures forall k :: k != key ==> At(held, k) == At(old(held), k)
    {
      if total == 0 {
        Release(key, At(held, key));
      } else {
        Release(key, SatSub(At(held, key), total));
      }
    }

    /** The currency releases as much as is held. */
    method Release(key: LR.Key, amount: nat)
      modifies this`held
      ensures held == old(held)[key := SatSub(At(old(held), key), amount)]
    {
      held := held[key := At(held, key) - Min(amount, At(held, key))];
    }

    /** Exactly these schedules are stored afterwards, and no empty list; too many are refused. */
    method WriteVestingSchedule(key: LR.Key, schedules: seq<VestingInfo>) returns (r: LR.Result<()>)
      modifies this`vesting
      ensures r.Ok? <==> |schedules| <= config.maxSchedules
      ensures r.Ok? ==> LR.WriteVesting(config, old(vesting), key, schedules) == LR.Ok(vesting)
      ensures r.Ok? ==> LR.SchedulesAt(View(), key) == schedules && (key in vesting <==> schedules != [])
      ensures r.Ok? ==> OnlyTouches(old(View()), View(), key)
      ensures r.Err? ==> vesting == old(vesting) && LR.WriteVesting(config, vesting, key, schedules) == LR.Err(r.error)
    {
      if |schedules| > config.maxSchedules { return LR.Err(LR.AtMaxVestingSchedules); }
      if |schedules| == 0 {
        vesting := vesting - {key};
      } else {
        vesting := vesting[key := schedules];
      }
      r := LR.Ok(());
    }

    method Settle(key: LR.Key, schedules: seq<VestingInfo>, action: LR.Action) returns (r: LR.Result<()>)
      modifies this`vesting, this`held
      ensures Outcome(r, old(View()), View(), LR.Settle(config, old(View()), key, schedules, action, now))
    {
      var outcome := ExecAction(schedules, action);
      if outcome.Err? { return LR.Err(outcome.error); }
      r := WriteVestingSchedule(key, outcome.value.0);
      if r.Ok? { WriteRelease(key, outcome.value.1); }
    }

    /** Vesting succeeds exactly where something vests. It lowers the hold to exactly what is still
        locked, and changes nothing about what stays locked at any later block. */
    method DoVest(key: LR.Key) returns (r: LR.Result<()>)
      requires Valid()
      modifies this`vesting, this`held
      ensures Valid()
      ensures Outcome(r, old(View()), View(), LR.DoVest(config, old(View()), key, now))
      ensures r.Ok? <==> key in old(vesting)
      ensures r.Ok? ==> SettledWith(old(View()), View(), key, now, LR.Locked(old(vesting)[key], now))
      ensures r.Ok? ==> forall n: nat :: now <= n ==>
        LR.Locked(LR.SchedulesAt(View(), key), n) == LR.Locked(old(vesting)[key], n)
    {
      ghost var v := View();
      VestSettles(config, v, key, now);
      if key !in vesting { return LR.Err(LR.NotVesting); }
      r := Settle(key, vesting[key], LR.Passive);
      forall n: nat | now <= n ensures LR.Locked(LR.SchedulesAt(View(), key), n) == LR.Locked(v.vesting[key], n) {
        VestKeepsPromises(config, v, key, now, n);
      }
    }

    /** Removing succeeds exactly where something vests. It lowers the hold to exactly what the other
        schedules lock; an index out of bounds only vests. */
    method RemoveVestingSchedule(key: LR.Key, index: nat) returns (r: LR.Result<()>)
      requires Valid()
      modifies this`vesting, this`held
      ensures Valid()
      ensures Outcome(r, old(View()), View(), LR.RemoveSchedule(config, old(View()), key, index, now))
      ensures r.Ok? <==> key in old(vesting)
      ensures r.Ok? ==>
        var schedules := old(vesting)[key];
        var removed := if index < |schedules| then schedules[index].LockedAt(now) else 0;
        removed <= LR.Locked(schedules, now)
        && SettledWith(old(View()), View(), key, now, LR.Locked(schedules, now) - removed)
    {
      RemoveSettles(config, View(), key, index, now);
      if key !in vesting { return LR.Err(LR.NotVesting); }
      r := Settle(key, vesting[key], LR.Remove(index));
    }

    /** Merging different indices succeeds exactly when both are in bounds. It lowers the hold to what
        is still locked, and locks no less at any later block, exactly as much if one of the two has
        ended; merging an index with itself does nothing. */
    method MergeSchedules(key: LR.Key, i: nat, j: nat) returns (r: LR.Result<()>)
      requires Valid()
      modifies this`vesting, this`held
      ensures Valid()
      ensures Outcome(r, old(View()), View(), LR.MergeSchedules(config, old(View()), key, i, j, now))
      ensures i == j ==> r.Ok? && View() == old(View())
      ensures i != j ==>
        (r.Ok? <==> i < |LR.SchedulesAt(old(View()), key)| && j < |LR.SchedulesAt(old(View()), key)|)
      ensures i != j && r.Ok? ==> SettledWith(old(View()), View(), key, now, LR.Locked(old(vesting)[key], now))
      ensures i != j && r.Ok? && Fits(old(vesting)[key][i]) && Fits(old(vesting)[key][j]) ==>
        KeepsPromises(old(View()), View(), key, now)
      ensures i != j && r.Ok? && (old(vesting)[key][i].EndingBlock() <= now
                                  || old(vesting)[key][j].EndingBlock() <= now) ==>
        forall n: nat :: now <= n ==> LR.Locked(LR.SchedulesAt(View(), key), n) == LR.Locked(old(vesting)[key], n)
    {
      if i == j { return LR.Ok(()); }
      ghost var v := View();
      MergeSettles(config, v, key, i, j, now);
      if key !in vesting { return LR.Err(LR.NotVesting); }
      r := Settle(key, vesting[key], LR.Merge(i, j));
      if r.Ok? && Fits(v.vesting[key][i]) && Fits(v.vesting[key][j]) {
        MergeOpKeepsPromises(config, v, key, i, j, now);
      }
      if r.Ok? && (v.vesting[key][i].EndingBlock() <= now || v.vesting[key][j].EndingBlock() <= now) {
        forall n: nat | now <= n ensures LR.Locked(LR.SchedulesAt(View(), key), n) == LR.Locked(v.vesting[key], n) {
          MergeOpWithEnded(config, v, key, i, j, now, n);
        }
      }
    }

    /** Setting a schedule of a positive amount is refused only if it is invalid or one too many. The
        hold is lowered to what all schedules lock, and covers them if and only if it did before. */
    method SetReleaseSchedule(key: LR.Key, s: VestingInfo) returns (r: LR.Result<()>)
      requires Valid() && s.locked <= MAX_BALANCE
      modifies this`vesting, this`held
      ensures Outcome(r, old(View()), View(), LR.SetReleaseSchedule(config, old(View()), key, s, now))
      ensures s.locked == 0 || r.Err? ==> Valid()
      ensures s.locked > 0 ==>
        (r.Ok? <==> s.IsValid() && |LR.SchedulesAt(old(View()), key)| < config.maxSchedules)
      ensures s.locked > 0 && r.Ok? ==> SetLeaves(config, old(View()), View(), key, s, now)
    {
      if s.locked == 0 { return LR.Ok(()); }
      if !s.IsValid() { return LR.Err(LR.InvalidScheduleParams); }
      var schedules := if key in vesting then vesting[key] else [];
      if |schedules| >= config.maxSchedules { return LR.Err(LR.AtMaxVestingSchedules); }
      ghost var v' := SetSettlesIff(config, View(), key, s, now);
      r := Settle(key, schedules + [s], LR.Passive);
    }

    /** Adding a schedule leaves all holds alone. The hold covers the schedules if and only if it
        covered them together with the new one before. */
    method AddReleaseSchedule(key: LR.Key, s: VestingInfo) returns (r: LR.Result<()>)
      requires Valid() && s.locked <= MAX_BALANCE
      modifies this`vesting
      ensures Outcome(r, old(View()), View(), LR.AddReleaseSchedule(config, old(View()), key, s, now))
      ensures s.locked == 0 || r.Err? ==> Valid()
      ensures s.locked > 0 && r.Ok? ==>
        && OnlyTouches(old(View()), View(), key)
        && LR.SchedulesAt(View(), key) == LR.Keep(LR.SchedulesAt(old(View()), key) + [s], LR.Passive, now)
        && (Valid() <==> LR.Locked(LR.SchedulesAt(old(View()), key), now) + s.LockedAt(now) <= At(held, key))
    {
      ghost var v := View();
      if s.locked == 0 { return LR.Ok(()); }
      if !s.IsValid() { return LR.Err(LR.InvalidScheduleParams); }
      var schedules := if key in vesting then vesting[key] else [];
      if |schedules| >= config.maxSchedules { return LR.Err(LR.AtMaxVestingSchedules); }
      var outcome := ExecAction(schedules + [s], LR.Passive);
      assert outcome.Ok?;
      r := WriteVestingSchedule(key, outcome.value.0);
      if r.Ok? { AddKeepsCoverIff(config, v, key, s, now); }
    }

    /** A vested transfer is refused only for the reasons checked up front. Otherwise the schedule is
        in place and the hold is exactly what the old schedules and the new one lock: the inner
        result that is ignored was `Ok`. */
    method DoVestedTransfer(key: LR.Key, s: VestingInfo, canTransfer: bool) returns (r: LR.Result<()>)
      requires Valid()
      modifies this`vesting, this`held
      ensures Valid()
      ensures Outcome(r, old(View()), View(), LR.DoVestedTransfer(config, old(View()), key, s, now, canTransfer))
      ensures r.Ok? <==> TransferAllowed(config, old(View()), key, s, canTransfer)
      ensures r.Ok? ==>
        var schedules := LR.SchedulesAt(old(View()), key);
        && SettledWith(old(View()), View(), key, now, LR.Locked(schedules, now) + s.LockedAt(now))
        && LR.SchedulesAt(View(), key) == LR.Keep(schedules + [s], LR.Passive, now)
    {
      ghost var v := View();
      if s.locked < config.minVestedTransfer { return LR.Err(LR.AmountLow); }
      if !s.IsValid() { return LR.Err(LR.InvalidScheduleParams); }
      var schedules := if key in vesting then vesting[key] else [];
      if |schedules| >= config.maxSchedules { return LR.Err(LR.AtMaxVestingSchedules); }
      if !canTransfer || At(held, key) + s.locked > MAX_BALANCE { return LR.Err(LR.CurrencyError); }
      TransferUnfolds(config, v, key, s, now, canTransfer);
      MoveAndSchedule(key, s);
      r := LR.Ok(());
    }

    /** The transfer itself, its result no longer in doubt. */
    method MoveAndSchedule(key: LR.Key, s: VestingInfo)
      requires Valid() && s.IsValid() && |LR.SchedulesAt(View(), key)| < config.maxSchedules
      requires At(held, key) + s.locked <= MAX_BALANCE
      modifies this`vesting, this`held
      ensures LR.SetReleaseSchedule(config, LR.Moved(old(View()), key, s.locked), key, s, now) == LR.Ok(View())
      ensures Valid()
      ensures
        var schedules := LR.SchedulesAt(old(View()), key);
        && SettledWith(old(View()), View(), key, now, LR.Locked(schedules, now) + s.LockedAt(now))
        && LR.SchedulesAt(View(), key) == LR.Keep(schedules + [s], LR.Passive, now)
    {
      ghost var v := View();
      held := held[key := At(held, key) + s.locked];
      assert View() == LR.Moved(v, key, s.locked);
      MovedKeepsInv(config, v, key, s.locked, now);
      assert VestingInfo(s.locked, s.PerBlock(), s.start) == s;
      var _ := SetReleaseSchedule(key, VestingInfo(s.locked, s.PerBlock(), s.start));
      var _ := MovedSettles(config, v, key, s, now);
    }
  }
}
