/** Searching an account's schedules for two that end close together and can be merged. */
module MergeCandidates {
  import opened Totals
  import opened VestingSchedule
  import LR = LinearRelease
  import opened LinearReleaseTheorems

  predicate Started(s: VestingInfo, now: nat) { s.start <= now }

  predicate EndWithin(s: VestingInfo, t: VestingInfo, delta: nat) {
    s.EndingBlock() <= t.EndingBlock() + delta && t.EndingBlock() <= s.EndingBlock() + delta
  }

  /** Brute force: a pair that has started and ends within `delta` blocks. */
  predicate Pair(schedules: seq<VestingInfo>, now: nat, delta: nat, j: nat, i: nat) {
    && j < i < |schedules|
    && Started(schedules[j], now) && Started(schedules[i], now)
    && EndWithin(schedules[j], schedules[i], delta)
  }

  /** The pair that completes earliest, with the partner that ends first. */
  ghost predicate FirstPair(schedules: seq<VestingInfo>, now: nat, delta: nat, j: nat, i: nat) {
    && Pair(schedules, now, delta, j, i)
    && (forall j': nat, i': nat :: Pair(schedules, now, delta, j', i') ==> i <= i')
    && (forall j': nat :: Pair(schedules, now, delta, j', i) && j' != j ==>
          schedules[j].EndingBlock() < schedules[j'].EndingBlock())
  }

  /** The least key of an ordered map within a range. */
  method FirstInRange(m: map<nat, nat>, low: nat, high: nat) returns (key: Option<nat>)
    ensures key.None? ==> forall k :: k in m ==> !(low <= k <= high)
    ensures key.Some? ==> key.value in m && low <= key.value <= high
    ensures key.Some? ==> forall k :: k in m && low <= k <= high ==> key.value <= k
  {
    key := None;
    var rest := m.Keys;
    while rest != {}
      invariant rest <= m.Keys
      invariant key.None? ==> forall k :: k in m && k !in rest ==> !(low <= k <= high)
      invariant key.Some? ==> key.value in m && low <= key.value <= high
      invariant key.Some? ==> forall k :: k in m && k !in rest && low <= k <= high ==> key.value <= k
      decreases |rest|
    {
      var k :| k in rest;
      if low <= k <= high && (key.None? || k < key.value) { key := Some(k); }
      rest := rest - {k};
    }
  }

  /** The map of ends seen so far: every started schedule before `i` is found under its end. */
  ghost predicate Inspected(m: map<nat, nat>, schedules: seq<VestingInfo>, now: nat, i: nat)
    requires i <= |schedules|
  {
    && (forall j: nat :: j < i && Started(schedules[j], now) ==> schedules[j].EndingBlock() in m)
    && (forall end :: end in m ==>
          m[end] < i && Started(schedules[m[end]], now) && schedules[m[end]].EndingBlock() == end)
  }

  /** The search agrees with brute force: it finds nothing if and only if there is no pair. The pair
      found completes at the earliest index at which any pair completes, with the partner that
      ends first; so no better partner was passed over. */
  method NextMergeCandidates(stored: Option<seq<VestingInfo>>, now: nat, delta: nat) returns (found: Option<(nat, nat)>)
    ensures stored.None? ==> found.None?
    ensures stored.Some? && found.None? ==> forall j: nat, i: nat :: !Pair(stored.value, now, delta, j, i)
    ensures stored.Some? && found.Some? ==> FirstPair(stored.value, now, delta, found.value.0, found.value.1)
  {
    if stored.None? { return None; }
    var schedules := stored.value;
    var inspected: map<nat, nat> := map[];
    for i := 0 to |schedules|
      invariant Inspected(inspected, schedules, now, i)
      invariant forall j: nat, k: nat :: k < i ==> !Pair(schedules, now, delta, j, k)
    {
      if Started(schedules[i], now) {
        var end := schedules[i].EndingBlock();
        var key := FirstInRange(inspected, SatSub(end, delta), SatAdd(end, delta));
        if key.Some? {
          FirstPartner(inspected, schedules, now, delta, i, key.value);
          return Some((inspected[key.value], i));
        }
        NoPartner(inspected, schedules, now, delta, i);
        InspectMore(inspected, schedules, now, i);
        inspected := inspected[end := i];
      }
    }
    found := None;
  }

  lemma {:induction false} InspectMore(m: map<nat, nat>, schedules: seq<VestingInfo>, now: nat, i: nat)
    requires i < |schedules| && Inspected(m, schedules, now, i) && Started(schedules[i], now)
    ensures Inspected(m[schedules[i].EndingBlock() := i], schedules, now, i + 1)
  {
  }

  lemma {:induction false} FirstPartner(m: map<nat, nat>, schedules: seq<VestingInfo>, now: nat, delta: nat, i: nat,
                                        key: nat)
    requires i < |schedules| && Started(schedules[i], now) && Inspected(m, schedules, now, i)
    requires forall j: nat, k: nat :: k < i ==> !Pair(schedules, now, delta, j, k)
    requires key in m && SatSub(schedules[i].EndingBlock(), delta) <= key <= SatAdd(schedules[i].EndingBlock(), delta)
    requires var end := schedules[i].EndingBlock();
             forall k :: k in m && SatSub(end, delta) <= k <= SatAdd(end, delta) ==> key <= k
    ensures FirstPair(schedules, now, delta, m[key], i)
  {
    var j := m[key];
    RangeIsExact(schedules[j], schedules[i], delta);
    Uniqueness(schedules, now, delta, i);
    forall j': nat | Pair(schedules, now, delta, j', i) && j' != j ensures key < schedules[j'].EndingBlock() {
      RangeIsExact(schedules[j'], schedules[i], delta);
    }
  }

  /** Ends are balances, so clamping the range at the largest balance loses none of them. */
  lemma {:induction false} RangeIsExact(s: VestingInfo, t: VestingInfo, delta: nat)
    ensures EndWithin(s, t, delta)
       <==> SatSub(t.EndingBlock(), delta) <= s.EndingBlock() <= SatAdd(t.EndingBlock(), delta)
  {
  }

  lemma {:induction false} NoPartner(m: map<nat, nat>, schedules: seq<VestingInfo>, now: nat, delta: nat, i: nat)
    requires i < |schedules| && Inspected(m, schedules, now, i)
    requires forall k :: k in m ==>
      !(SatSub(schedules[i].EndingBlock(), delta) <= k <= SatAdd(schedules[i].EndingBlock(), delta))
    ensures forall j: nat :: !Pair(schedules, now, delta, j, i)
  {
  }

  /** While no pair has been met, different started schedules have different ends. */
  lemma {:induction false} Uniqueness(schedules: seq<VestingInfo>, now: nat, delta: nat, i: nat)
    requires i < |schedules|
    requires forall j: nat, k: nat :: k < i ==> !Pair(schedules, now, delta, j, k)
    ensures forall j: nat, k: nat ::
      (j < i && k < i && Started(schedules[j], now) && Started(schedules[k], now)
       && schedules[j].EndingBlock() == schedules[k].EndingBlock()) ==> j == k
  {
    forall j: nat, k: nat | j < k < i && Started(schedules[j], now) && Started(schedules[k], now)
      ensures schedules[j].EndingBlock() != schedules[k].EndingBlock()
    {
      assert !Pair(schedules, now, delta, j, k);
    }
  }

  /** A candidate pair can always be merged. */
  lemma {:induction false} CandidatesMerge(c: LR.Config, v: LR.Vault, key: LR.Key, now: nat, delta: nat, j: nat, i: nat)
    requires now < MAX_BALANCE && LR.VaultInv(c, v, now) && key in v.vesting
    requires Pair(v.vesting[key], now, delta, j, i)
    ensures LR.MergeSchedules(c, v, key, j, i, now).Ok?
  {
    MergeSettles(c, v, key, j, i, now);
  }
}
