/** Linear vesting schedules: what is locked when, when a schedule ends, and how two are merged. */
module VestingSchedule {
  import opened Totals
  import opened Arithmetic

  /** Amounts are balances; block numbers convert to balances unchanged. */
  datatype VestingInfo = VestingInfo(locked: nat, rawPerBlock: nat, start: nat) {

    predicate IsValid() {
      locked > 0 && rawPerBlock > 0
    }

    /** Never less than one, or the vesting would never end. */
    function PerBlock(): (p: nat)
      ensures p >= 1
    {
      Max(rawPerBlock, 1)
    }

    /** An overflowing product means that everything has been released. */
    function LockedAt(n: nat): nat {
      var product := SatSub(n, start) * PerBlock();
      if product > MAX_BALANCE then 0 else SatSub(locked, product)
    }

    function Duration(): nat {
      if PerBlock() >= locked then 1
      else locked / PerBlock() + if locked % PerBlock() == 0 then 0 else 1
    }

    function EndingBlock(): nat {
      SatAdd(start, Duration())
    }
  }

  function MergeVestingInfo(now: nat, s1: VestingInfo, s2: VestingInfo): Option<VestingInfo> {
    if s1.EndingBlock() <= now && s2.EndingBlock() <= now then None
    else if s1.EndingBlock() <= now then Some(s2)
    else if s2.EndingBlock() <= now then Some(s1)
    else
      var locked := SatAdd(s1.LockedAt(now), s2.LockedAt(now));
      var ending := Max(s1.EndingBlock(), s2.EndingBlock());
      var start := Max(now, Max(s1.start, s2.start));
      Some(VestingInfo(locked, MergedPerBlock(locked, RemainingBlocks(ending, start)), start))
  }

  function RemainingBlocks(ending: nat, start: nat): (d: nat)
    ensures d >= 1
  {
    Max(SatSub(ending, start), 1)
  }

  function MergedPerBlock(locked: nat, duration: nat): (p: nat)
    requires duration >= 1
    ensures p >= 1
  {
    Max(locked / duration, 1)
  }

  /** A merge that yields no schedule locks nothing. */
  function LockedIn(s: Option<VestingInfo>, n: nat): nat {
    if s.None? then 0 else s.value.LockedAt(n)
  }

  /** The amount is a balance and the end is representable as one. */
  predicate Fits(s: VestingInfo) {
    s.locked <= MAX_BALANCE && s.start + s.Duration() < MAX_BALANCE
  }

  // ----------------------------------------------------------- arithmetic

  /** `q` is the rounded-up quotient of `l` by `p`. */
  ghost predicate IsCeil(l: nat, p: nat, q: nat) {
    l <= q * p && (q > 0 ==> (q - 1) * p < l)
  }

  lemma {:induction false} QuotientPositive(l: nat, p: nat)
    requires 0 < p <= l
    ensures l / p >= 1
  {
  }

  lemma {:induction false} CeilDivision(l: nat, p: nat)
    requires 0 < p <= l
    ensures l % p == 0 ==> IsCeil(l, p, l / p)
    ensures l % p != 0 ==> IsCeil(l, p, l / p + 1)
  {
    QuotientPositive(l, p);
    var q, r := l / p, l % p;
    assert l == q * p + r;
    assert (q - 1) * p == q * p - p;
    assert (q + 1) * p == q * p + p;
  }

  lemma {:induction false} DurationIsCeil(s: VestingInfo)
    requires s.locked > 0
    ensures s.Duration() > 0 && IsCeil(s.locked, s.PerBlock(), s.Duration())
  {
    var l, p := s.locked, s.PerBlock();
    if p < l {
      QuotientPositive(l, p);
      CeilDivision(l, p);
    }
  }

  /** What is locked, in exact arithmetic. */
  lemma {:induction false} LockedExact(s: VestingInfo, n: nat)
    requires s.locked <= MAX_BALANCE
    ensures s.LockedAt(n) == SatSub(s.locked, SatSub(n, s.start) * s.PerBlock())
  {
  }

  lemma {:induction false} LockedDecreases(s: VestingInfo, m: nat, n: nat)
    requires m <= n
    ensures s.LockedAt(n) <= s.LockedAt(m) <= s.locked
  {
    MulLe(SatSub(m, s.start), SatSub(n, s.start), s.PerBlock());
  }

  /** Something is locked exactly until the schedule ends. */
  lemma {:induction false} LockedUntilEnd(s: VestingInfo, n: nat)
    requires 0 < s.locked <= MAX_BALANCE
    ensures s.LockedAt(n) > 0 <==> n < s.start + s.Duration()
  {
    DurationIsCeil(s);
    LockedExact(s, n);
    var p, d := s.PerBlock(), s.Duration();
    var k := SatSub(n, s.start);
    if n < s.start + d {
      MulLe(k, d - 1, p);
    } else {
      MulLe(d, k, p);
    }
  }

  lemma {:induction false} LockedAtEnd(s: VestingInfo, n: nat)
    requires s.locked <= MAX_BALANCE && s.start + s.Duration() <= n
    ensures s.LockedAt(n) == 0
  {
    if s.locked > 0 { LockedUntilEnd(s, n); } else { LockedDecreases(s, 0, n); }
  }

  // -------------------------------------- merging never releases earlier

  lemma {:induction false} ChordArithmetic(y: int, p: int, u: int, w: int)
    requires 0 <= u && 0 <= y <= p * w
    ensures y * (u + w) <= (y + p * u) * w
  {
    assert y * (u + w) == y * u + y * w;
    assert (y + p * u) * w == y * w + p * u * w;
    MulLe(y, p * w, u);
    assert p * w * u == p * u * w;
  }

  /** The numbers behind a schedule releasing `p` per block, `k` blocks in, `u` blocks later, and
      `w` blocks after that, when nothing is left. */
  lemma {:induction false} ReleaseArithmetic(locked: nat, p: nat, k: nat, u: nat, w: nat)
    requires p > 0 && SatSub(locked, (k + u + w) * p) == 0
    ensures SatSub(locked, (k + u) * p) * (u + w) <= SatSub(locked, k * p) * w
  {
    var y := SatSub(locked, (k + u) * p);
    if y == 0 {
      assert y * (u + w) == 0;
    } else {
      assert (k + u) * p == k * p + p * u;
      assert (k + u + w) * p == k * p + p * u + p * w;
      ChordArithmetic(y, p, u, w);
    }
  }

  /** A schedule that has started lies below the straight line from any later point to its end. */
  lemma {:induction false} BelowChord(s: VestingInfo, from: nat, n: nat, end: nat)
    requires s.locked <= MAX_BALANCE && s.start <= from <= n <= end && s.LockedAt(end) == 0
    ensures s.LockedAt(n) * (end - from) <= s.LockedAt(from) * (end - n)
  {
    LockedExact(s, from);
    LockedExact(s, n);
    LockedExact(s, end);
    ReleaseArithmetic(s.locked, s.PerBlock(), from - s.start, n - from, end - n);
  }

  /** An unfinished schedule locks at least one unit per remaining block. */
  lemma {:induction false} RemainingWithinLocked(s: VestingInfo, from: nat)
    requires 0 < s.locked <= MAX_BALANCE && s.start <= from < s.start + s.Duration()
    ensures s.start + s.Duration() - from <= s.LockedAt(from)
  {
    DurationIsCeil(s);
    LockedExact(s, from);
    var p, d, k := s.PerBlock(), s.Duration(), from - s.start;
    assert (d - 1) * p == k * p + (d - 1 - k) * p;
    MulLe(1, p, d - 1 - k);
    assert p * (d - 1 - k) == (d - 1 - k) * p;
  }

  lemma {:induction false} LineArithmetic(l: int, q: int, d: int, k: int, sum: int)
    requires d > 0 && 0 <= k <= d && q * d <= l && sum * d <= l * (d - k)
    ensures sum <= l - q * k
  {
    assert (l - q * k) * d == l * d - q * d * k;
    assert q * d * k <= l * k by { MulLe(q * d, l, k); }
    assert l * (d - k) == l * d - l * k;
    Cancel(sum, l - q * k, d);
  }

  // The merge of two unfinished schedules.

  lemma {:induction false} EndNotSaturated(s: VestingInfo)
    requires Fits(s)
    ensures s.EndingBlock() == s.start + s.Duration()
  {
  }

  /** Both unfinished: the merged schedule starts before both have ended, and its total covers one
      unit for each remaining block, unless there is nothing to lock at all. */
  lemma {:induction false} MergeSpans(now: nat, s1: VestingInfo, s2: VestingInfo)
    requires Fits(s1) && Fits(s2) && now < s1.EndingBlock() && now < s2.EndingBlock()
    requires s1.LockedAt(now) + s2.LockedAt(now) <= MAX_BALANCE
    ensures var start, end := Max(now, Max(s1.start, s2.start)), Max(s1.EndingBlock(), s2.EndingBlock());
            && start < end
            && (end - start <= s1.LockedAt(now) + s2.LockedAt(now) || end - start == 1)
  {
    EndNotSaturated(s1);
    EndNotSaturated(s2);
    var start := Max(now, Max(s1.start, s2.start));
    SpanOf(now, s1, start);
    SpanOf(now, s2, start);
  }

  lemma {:induction false} SpanOf(now: nat, s: VestingInfo, start: nat)
    requires Fits(s) && now < s.start + s.Duration() && now <= start && s.start <= start
    ensures s.start + s.Duration() - start <= s.LockedAt(now) || s.start + s.Duration() - start <= 1
  {
    if s.locked > 0 {
      var from := Max(now, s.start);
      RemainingWithinLocked(s, from);
      assert s.LockedAt(from) == s.LockedAt(now);
    }
  }

  /** The rate of the merged schedule does not exhaust the total before the later end. */
  lemma {:induction false} MergedRate(locked: nat, duration: nat)
    requires 1 <= duration && (duration <= locked || duration == 1) && locked > 0
    ensures MergedPerBlock(locked, duration) == locked / duration
    ensures MergedPerBlock(locked, duration) * duration <= locked
  {
    QuotientPositive(locked, duration);
    assert locked == locked / duration * duration + locked % duration;
  }

  lemma {:induction false} ChordSum(s: VestingInfo, now: nat, from: nat, n: nat, end: nat)
    requires Fits(s) && now <= from && s.start <= from <= n <= end && s.start + s.Duration() <= end
    ensures s.LockedAt(n) * (end - from) <= s.LockedAt(now) * (end - n)
  {
    LockedAtEnd(s, end);
    BelowChord(s, from, n, end);
    LockedDecreases(s, now, from);
    MulLe(s.LockedAt(from), s.LockedAt(now), end - n);
  }

  ghost predicate BothOpen(now: nat, s1: VestingInfo, s2: VestingInfo) {
    && Fits(s1) && Fits(s2) && now < s1.EndingBlock() && now < s2.EndingBlock()
    && s1.LockedAt(now) + s2.LockedAt(now) <= MAX_BALANCE
  }

  /** Before the later end the originals together stay below the merged line. */
  lemma {:induction false} SumBelowLine(now: nat, s1: VestingInfo, s2: VestingInfo, start: nat, n: nat, end: nat,
                                        q: nat)
    requires Fits(s1) && Fits(s2) && now <= start <= n <= end && start < end
    requires s1.start <= start && s2.start <= start
    requires s1.start + s1.Duration() <= end && s2.start + s2.Duration() <= end
    requires q * (end - start) <= s1.LockedAt(now) + s2.LockedAt(now)
    ensures s1.LockedAt(n) + s2.LockedAt(n) + q * (n - start) <= s1.LockedAt(now) + s2.LockedAt(now)
  {
    ChordSum(s1, now, start, n, end);
    ChordSum(s2, now, start, n, end);
    LinesAdd(s1.LockedAt(n), s2.LockedAt(n), s1.LockedAt(now), s2.LockedAt(now), q, end - start, n - start);
  }

  lemma {:induction false} LinesAdd(x1: nat, x2: nat, a: nat, b: nat, q: nat, d: nat, k: nat)
    requires d > 0 && k <= d && x1 * d <= a * (d - k) && x2 * d <= b * (d - k) && q * d <= a + b
    ensures x1 + x2 + q * k <= a + b
  {
    SumOfProducts(x1, x2, d, a, b, d - k);
    LineArithmetic(a + b, q, d, k, x1 + x2);
  }

  lemma {:induction false} MergedBetween(now: nat, s1: VestingInfo, s2: VestingInfo, n: nat)
    requires BothOpen(now, s1, s2) && s1.LockedAt(now) + s2.LockedAt(now) > 0
    requires Max(now, Max(s1.start, s2.start)) <= n <= Max(s1.EndingBlock(), s2.EndingBlock())
    ensures s1.LockedAt(n) + s2.LockedAt(n) <= MergeVestingInfo(now, s1, s2).value.LockedAt(n)
  {
    var start, end := Max(now, Max(s1.start, s2.start)), Max(s1.EndingBlock(), s2.EndingBlock());
    var l, d := s1.LockedAt(now) + s2.LockedAt(now), end - start;
    EndNotSaturated(s1);
    EndNotSaturated(s2);
    MergeSpans(now, s1, s2);
    MergedRate(l, d);
    SumBelowLine(now, s1, s2, start, n, end, MergedPerBlock(l, d));
    MergedLockedAt(l, MergedPerBlock(l, d), start, n);
    assert MergeVestingInfo(now, s1, s2).value == VestingInfo(l, MergedPerBlock(l, d), start);
  }

  lemma {:induction false} MergedLockedAt(l: nat, q: nat, start: nat, n: nat)
    requires l <= MAX_BALANCE && q >= 1 && start <= n
    ensures VestingInfo(l, q, start).LockedAt(n) == SatSub(l, q * (n - start))
  {
    assert q * (n - start) == (n - start) * q;
  }

  lemma {:induction false} SumOfProducts(x1: nat, x2: nat, d: nat, a: nat, b: nat, e: nat)
    requires x1 * d <= a * e && x2 * d <= b * e
    ensures (x1 + x2) * d <= (a + b) * e
  {
    assert (x1 + x2) * d == x1 * d + x2 * d;
    assert (a + b) * e == a * e + b * e;
  }

  lemma {:induction false} MergedNow(now: nat, s1: VestingInfo, s2: VestingInfo, n: nat)
    requires BothOpen(now, s1, s2) && n <= Max(now, Max(s1.start, s2.start))
    ensures MergeVestingInfo(now, s1, s2).value.LockedAt(n) == s1.LockedAt(now) + s2.LockedAt(now)
  {
    assert SatSub(n, MergeVestingInfo(now, s1, s2).value.start) == 0;
  }

  lemma {:induction false} MergedOpen(now: nat, s1: VestingInfo, s2: VestingInfo, n: nat)
    requires BothOpen(now, s1, s2) && now <= n
    ensures s1.LockedAt(n) + s2.LockedAt(n) <= MergeVestingInfo(now, s1, s2).value.LockedAt(n)
  {
    LockedDecreases(s1, now, n);
    LockedDecreases(s2, now, n);
    if n <= Max(now, Max(s1.start, s2.start)) {
      MergedNow(now, s1, s2, n);
    } else if Max(s1.EndingBlock(), s2.EndingBlock()) < n {
      EndNotSaturated(s1);
      EndNotSaturated(s2);
      LockedAtEnd(s1, n);
      LockedAtEnd(s2, n);
    } else if s1.LockedAt(now) + s2.LockedAt(now) > 0 {
      MergedBetween(now, s1, s2, n);
    }
  }

  /** Merging never releases anything earlier: at every later block the merged schedule locks at
      least what the two originals would have locked, and exactly that much now. */
  lemma {:induction false} MergeNeverReleasesEarlier(now: nat, s1: VestingInfo, s2: VestingInfo, n: nat)
    requires Fits(s1) && Fits(s2) && s1.LockedAt(now) + s2.LockedAt(now) <= MAX_BALANCE && now <= n
    ensures s1.LockedAt(n) + s2.LockedAt(n) <= LockedIn(MergeVestingInfo(now, s1, s2), n)
    ensures LockedIn(MergeVestingInfo(now, s1, s2), now) == s1.LockedAt(now) + s2.LockedAt(now)
  {
    EndNotSaturated(s1);
    EndNotSaturated(s2);
    if s1.EndingBlock() <= now { LockedAtEnd(s1, now); LockedAtEnd(s1, n); }
    if s2.EndingBlock() <= now { LockedAtEnd(s2, now); LockedAtEnd(s2, n); }
    if now < s1.EndingBlock() && now < s2.EndingBlock() { MergedOpen(now, s1, s2, n); MergedNow(now, s1, s2, now); }
  }

  /** The bound on the total is needed: the sum in the merge saturates, so now locks exactly the
      sum of both if and only if that sum is representable. */
  lemma {:induction false} MergeExactIff(now: nat, s1: VestingInfo, s2: VestingInfo)
    requires Fits(s1) && Fits(s2)
    ensures LockedIn(MergeVestingInfo(now, s1, s2), now) == s1.LockedAt(now) + s2.LockedAt(now)
       <==> s1.LockedAt(now) + s2.LockedAt(now) <= MAX_BALANCE
  {
    if s1.LockedAt(now) + s2.LockedAt(now) <= MAX_BALANCE {
      MergeNeverReleasesEarlier(now, s1, s2, now);
    } else {
      var m := MergeVestingInfo(now, s1, s2);
      LockedDecreases(s1, now, now);
      LockedDecreases(s2, now, now);
      if m.Some? { LockedDecreases(m.value, now, now); }
    }
  }

  /** Where at least one schedule has ended, merging changes nothing about what is locked: the other one
      goes on as it was. Nothing remains if and only if both have ended. */
  lemma {:induction false} MergeWithEnded(now: nat, s1: VestingInfo, s2: VestingInfo, n: nat)
    requires now < MAX_BALANCE && now <= n && s1.locked <= MAX_BALANCE && s2.locked <= MAX_BALANCE
    requires s1.EndingBlock() <= now || s2.EndingBlock() <= now
    ensures LockedIn(MergeVestingInfo(now, s1, s2), n) == s1.LockedAt(n) + s2.LockedAt(n)
    ensures MergeVestingInfo(now, s1, s2).None? <==> s1.EndingBlock() <= now && s2.EndingBlock() <= now
  {
    if s1.EndingBlock() <= now { LockedAtEnd(s1, n); }
    if s2.EndingBlock() <= now { LockedAtEnd(s2, n); }
  }

  lemma {:induction false} NearLineArithmetic(l: nat, q: nat, d: nat, k: nat, r: nat)
    requires k <= d && l == q * d + r && r < d && q >= 1
    ensures q * k <= l
    ensures l * (d - k) <= (l - q * k) * d <= l * (d - k) + k * (d - 1)
  {
    MulLe(k, d, q);
    Commute(q, k);
    Commute(q, d);
    Distribute(l - q * k, q * k, d);
    Distribute(d - k, k, l);
    Commute(d - k, l);
    Commute(k, l);
    Commute(d, l);
    Regroup(q, k, d);
    Distribute(q * d, r, k);
    MulLe(r, d - 1, k);
    Commute(d - 1, k);
  }

  /** The shape of the merge of two open schedules: rate and remainder of the total over the blocks left. */
  lemma {:induction false} MergedShape(now: nat, s1: VestingInfo, s2: VestingInfo)
    returns (total: nat, start: nat, end: nat, rate: nat, rest: nat)
    requires BothOpen(now, s1, s2) && s1.LockedAt(now) + s2.LockedAt(now) > 0
    ensures total == s1.LockedAt(now) + s2.LockedAt(now) <= MAX_BALANCE
    ensures start == Max(now, Max(s1.start, s2.start)) < end == Max(s1.EndingBlock(), s2.EndingBlock())
    ensures rate >= 1 && rest < end - start && total == rate * (end - start) + rest
    ensures MergeVestingInfo(now, s1, s2) == Some(VestingInfo(total, rate, start))
  {
    total := s1.LockedAt(now) + s2.LockedAt(now);
    start, end := Max(now, Max(s1.start, s2.start)), Max(s1.EndingBlock(), s2.EndingBlock());
    MergeSpans(now, s1, s2);
    rate, rest := RateOf(total, end - start);
  }

  lemma {:induction false} RateOf(total: nat, duration: nat) returns (rate: nat, rest: nat)
    requires 1 <= duration && (duration <= total || duration == 1) && total > 0
    ensures rate == MergedPerBlock(total, duration) >= 1 && rest < duration && total == rate * duration + rest
  {
    MergedRate(total, duration);
    rate, rest := MergedPerBlock(total, duration), total % duration;
    assert total == total / duration * duration + total % duration;
  }

  /** Between its start, the latest of now and both starts, and the later of the two ends, what the merge
      of two open schedules locks runs along the straight line from what both lock now down to zero,
      above it by less than one unit per block. */
  lemma {:induction false} MergedNearLine(now: nat, s1: VestingInfo, s2: VestingInfo, n: nat)
    requires BothOpen(now, s1, s2) && s1.LockedAt(now) + s2.LockedAt(now) > 0
    requires Max(now, Max(s1.start, s2.start)) <= n <= Max(s1.EndingBlock(), s2.EndingBlock())
    ensures var start, end := Max(now, Max(s1.start, s2.start)), Max(s1.EndingBlock(), s2.EndingBlock());
            var total, locked := s1.LockedAt(now) + s2.LockedAt(now), LockedIn(MergeVestingInfo(now, s1, s2), n);
            && start < end
            && total * (end - n) <= locked * (end - start) <= total * (end - n) + (n - start) * (end - start - 1)
  {
    var total, start, end, rate, rest := MergedShape(now, s1, s2);
    NearLineArithmetic(total, rate, end - start, n - start, rest);
    MergedLockedAt(total, rate, start, n);
  }

  // ----------------------------------------------------- when it ends

  lemma {:induction false} CeilOfRate(l: nat, d: nat, q: nat, c: nat)
    requires l > 0 && 1 <= d <= l && q == l / d && IsCeil(l, q, c) && c > 0
    ensures d <= c <= 2 * d - 1
    ensures c == d <==> l % d == 0
  {
    QuotientPositive(l, d);
    assert l == q * d + l % d;
    CeilBounds(l, d, q, l % d, c);
  }

  lemma {:induction false} CeilBounds(l: nat, d: nat, q: nat, r: nat, c: nat)
    requires 1 <= d && 1 <= q && l == q * d + r && r < d && c > 0
    requires l <= c * q && (c - 1) * q < l
    ensures d <= c <= 2 * d - 1
    ensures c == d <==> r == 0
  {
    assert q * d == d * q;
    assert (2 * d - 1) * q == d * q + (d - 1) * q;
    assert (d - 1) * q == d * q - q;
    MulLe(1, q, d - 1);
    assert q * (d - 1) == (d - 1) * q;
    Cancel(d, c, q);
    CancelLt(c - 1, 2 * d - 1, q);
    if r == 0 { CancelLt(c - 1, d, q); }
  }

  /** The merged schedule ends at or after both originals, at most doubling the remaining time. It
      ends exactly with the later one if and only if the remaining blocks divide the total evenly. */
  lemma {:induction false} MergedEnd(now: nat, s1: VestingInfo, s2: VestingInfo)
    requires BothOpen(now, s1, s2) && s1.LockedAt(now) + s2.LockedAt(now) > 0
    ensures var m := MergeVestingInfo(now, s1, s2).value;
            var total, end := s1.LockedAt(now) + s2.LockedAt(now), Max(s1.EndingBlock(), s2.EndingBlock());
            && m.start == Max(now, Max(s1.start, s2.start)) < end
            && end <= m.EndingBlock() <= end + (end - m.start) - 1
            && (m.EndingBlock() == end <==> total % (end - m.start) == 0)
  {
    var start, end := Max(now, Max(s1.start, s2.start)), Max(s1.EndingBlock(), s2.EndingBlock());
    var l, d := s1.LockedAt(now) + s2.LockedAt(now), end - start;
    MergeSpans(now, s1, s2);
    MergedRate(l, d);
    var m := MergeVestingInfo(now, s1, s2).value;
    assert m == VestingInfo(l, l / d, start);
    DurationIsCeil(m);
    CeilOfRate(l, d, l / d, m.Duration());
    EndNotSaturated(s1);
    EndNotSaturated(s2);
  }

  /** After the later of the two ends, less than one unit per block the merge was spread over is left, and
      nothing once that many blocks have passed again. */
  lemma {:induction false} MergedAfterEnd(now: nat, s1: VestingInfo, s2: VestingInfo, n: nat)
    requires BothOpen(now, s1, s2) && s1.LockedAt(now) + s2.LockedAt(now) > 0
    requires Max(s1.EndingBlock(), s2.EndingBlock()) <= n
    ensures var start, end := Max(now, Max(s1.start, s2.start)), Max(s1.EndingBlock(), s2.EndingBlock());
            var locked := LockedIn(MergeVestingInfo(now, s1, s2), n);
            locked < end - start && (end + (end - start) - 1 <= n ==> locked == 0)
  {
    var total, start, end, rate, rest := MergedShape(now, s1, s2);
    AfterEndArithmetic(total, rate, end - start, n - start, rest);
    MergedLockedAt(total, rate, start, n);
  }

  lemma {:induction false} AfterEndArithmetic(l: nat, q: nat, d: nat, k: nat, r: nat)
    requires d <= k && l == q * d + r && r < d && q >= 1
    ensures SatSub(l, q * k) <= r
    ensures 2 * d - 1 <= k ==> l <= q * k
  {
    MulLe(d, k, q);
    Commute(d, q);
    Commute(k, q);
    if 2 * d - 1 <= k {
      MulLe(2 * d - 1, k, q);
      Distribute(d, d - 1, q);
      MulLe(1, q, d - 1);
      Commute(q, d - 1);
    }
  }

  /** The documented end, the later of the two, is not always met: 19 units over 10 blocks are
      released one by one and last nine blocks longer. */
  lemma {:induction false} MergedEndCanOvershoot(s1: VestingInfo, s2: VestingInfo)
    requires s1.locked == 10 && s1.rawPerBlock == 1 && s1.start == 0
    requires s2.locked == 9 && s2.rawPerBlock == 1 && s2.start == 0
    ensures s1.EndingBlock() == 10 && s2.EndingBlock() == 9
    ensures MergeVestingInfo(0, s1, s2) == Some(VestingInfo(19, 1, 0))
    ensures VestingInfo(19, 1, 0).EndingBlock() == 19
  {
  }
}
