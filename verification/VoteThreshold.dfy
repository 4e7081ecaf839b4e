/** Approval thresholds: comparing ratios without ever forming a product. */
module VoteThreshold {
  import opened Totals
  import opened Arithmetic
  import opened DemocracyTypes

  lemma {:induction false} QuotientDecides(n1: nat, d1: nat, n2: nat, d2: nat)
    requires d1 > 0 && d2 > 0 && n1 / d1 < n2 / d2
    ensures n1 * d2 < n2 * d1
  {
    var q1, q2 := n1 / d1, n2 / d2;
    assert n1 < (q1 + 1) * d1 && q2 * d2 <= n2;
    calc {
      n1 * d2;
    <  { MulLt(n1, (q1 + 1) * d1, d2); }
      (q1 + 1) * d1 * d2;
    <= { MulLe(q1 + 1, q2, d1 * d2); Regroup(q1 + 1, d1, d2); }
      q2 * (d1 * d2);
    == { Regroup(q2, d2, d1); assert d1 * d2 == d2 * d1; }
      q2 * d2 * d1;
    <= { MulLe(q2 * d2, n2, d1); }
      n2 * d1;
    }
  }

  /** With equal quotients the comparison is that of the remainders. */
  lemma {:induction false} RemaindersDecide(q: nat, d1: nat, d2: nat, r1: nat, r2: nat)
    ensures (q * d1 + r1) * d2 < (q * d2 + r2) * d1 <==> r1 * d2 < r2 * d1
  {
    assert (q * d1 + r1) * d2 == q * d1 * d2 + r1 * d2;
    assert (q * d2 + r2) * d1 == q * d2 * d1 + r2 * d1;
    Regroup(q, d1, d2);
    Regroup(q, d2, d1);
  }

  /** One round of the loop: it either decides, or carries the question over to the flipped remainders. */
  lemma {:induction false} RoundDecides(n1: nat, d1: nat, n2: nat, d2: nat, q1: nat, q2: nat, r1: nat, r2: nat)
    requires d1 > 0 && d2 > 0
    requires q1 == n1 / d1 && q2 == n2 / d2 && r1 == n1 % d1 && r2 == n2 % d2
    ensures q1 < q2 ==> n1 * d2 < n2 * d1
    ensures q2 < q1 ==> !(n1 * d2 < n2 * d1)
    ensures q1 == q2 && r2 == 0 ==> !(n1 * d2 < n2 * d1)
    ensures q1 == q2 && r2 != 0 && r1 == 0 ==> n1 * d2 < n2 * d1
    ensures q1 == q2 ==> (n1 * d2 < n2 * d1 <==> d2 * r1 < d1 * r2)
    ensures r1 < d1 && r2 < d2
  {
    if q1 < q2 {
      QuotientDecides(n1, d1, n2, d2);
    } else if q2 < q1 {
      QuotientDecides(n2, d2, n1, d1);
    } else {
      EqualQuotients(n1, d1, n2, d2, r1, r2);
      if r1 == 0 { assert d2 * r1 == 0; }
      if r2 == 0 { assert d1 * r2 == 0; } else { MulLt(0, r2, d1); }
    }
  }

  lemma {:induction false} EqualQuotients(n1: nat, d1: nat, n2: nat, d2: nat, r1: nat, r2: nat)
    requires d1 > 0 && d2 > 0
    requires n1 / d1 == n2 / d2 && r1 == n1 % d1 && r2 == n2 % d2
    ensures n1 * d2 < n2 * d1 <==> d2 * r1 < d1 * r2
  {
    var q := n1 / d1;
    assert n1 == q * d1 + r1 && n2 == q * d2 + r2;
    RemaindersDecide(q, d1, d2, r1, r2);
    Commute(r1, d2);
    Commute(r2, d1);
  }

  /** The body of the loop: compare the quotients, then look at the remainders. */
  method CompareRound(n1: nat, d1: nat, n2: nat, d2: nat) returns (decided: bool, less: bool, r1: nat, r2: nat)
    requires d1 > 0 && d2 > 0
    ensures decided ==> (less <==> n1 * d2 < n2 * d1)
    ensures !decided ==> 0 < r1 < d1 && 0 < r2 < d2
    ensures !decided ==> (n1 * d2 < n2 * d1 <==> d2 * r1 < d1 * r2)
  {
    var q1 := n1 / d1;
    var q2 := n2 / d2;
    r1 := n1 % d1;
    r2 := n2 % d2;
    RoundDecides(n1, d1, n2, d2, q1, q2, r1, r2);
    if q1 < q2 {
      decided, less := true, true;
    } else if q2 < q1 {
      decided, less := true, false;
    } else if r2 == 0 {
      decided, less := true, false;
    } else if r1 == 0 {
      decided, less := true, true;
    } else {
      decided, less := false, false;
    }
  }

  /** The continued-fraction loop agrees with cross-multiplication, and terminates. */
  method CompareRationals(num1: nat, den1: nat, num2: nat, den2: nat) returns (less: bool)
    requires den1 > 0 && den2 > 0
    ensures less <==> num1 * den2 < num2 * den1
  {
    var n1, d1, n2, d2 := num1, den1, num2, den2;
    ghost var answer := num1 * den2 < num2 * den1;
    while true
      invariant d1 > 0 && d2 > 0
      invariant answer <==> n1 * d2 < n2 * d1
      decreases d1 + d2
    {
      var decided, result, r1, r2 := CompareRound(n1, d1, n2, d2);
      if decided {
        return result;
      }
      n1, n2, d1, d2 := d2, d1, r2, r1;
    }
  }

  lemma {:induction false} ProductGrows(x: nat, y: nat, x': nat, y': nat)
    requires x <= x' && y <= y'
    ensures x * y <= x' * y'
  {
    MulLe(x, x', y);
    MulLe(y, y', x');
    Commute(x', y);
    Commute(x', y');
  }

  ghost predicate IsSqrt(n: nat, r: nat) {
    r * r <= n < (r + 1) * (r + 1)
  }

  /** The integer square root of the runtime library, by its defining property. */
  ghost function IntegerSqrt(n: nat): (r: nat)
    ensures IsSqrt(n, r)
  {
    SqrtExists(n);
    var r :| IsSqrt(n, r);
    r
  }

  lemma {:induction false} SqrtExists(n: nat)
    ensures exists r: nat :: IsSqrt(n, r)
  {
    var r: nat := 0;
    while (r + 1) * (r + 1) <= n
      invariant r * r <= n
      decreases n - r
    {
      r := r + 1;
    }
    assert IsSqrt(n, r);
  }

  lemma {:induction false} SqrtOrder(m: nat, n: nat, x: nat, y: nat)
    requires m <= n && IsSqrt(m, x) && IsSqrt(n, y)
    ensures x <= y
  {
    if y < x { ProductGrows(y + 1, y + 1, x, x); }
  }

  method ComputeSqrt(n: nat) returns (r: nat)
    ensures r == IntegerSqrt(n)
  {
    r := 0;
    while (r + 1) * (r + 1) <= n
      invariant r * r <= n
      decreases n - r
    {
      r := r + 1;
    }
    SqrtIs(n, r);
  }

  lemma {:induction false} SqrtIs(n: nat, r: nat)
    requires IsSqrt(n, r)
    ensures IntegerSqrt(n) == r
  {
    SqrtOrder(n, n, r, IntegerSqrt(n));
    SqrtOrder(n, n, IntegerSqrt(n), r);
  }

  lemma {:induction false} SqrtMonotone(m: nat, n: nat)
    requires m <= n
    ensures IntegerSqrt(m) <= IntegerSqrt(n)
  {
    SqrtOrder(m, n, IntegerSqrt(m), IntegerSqrt(n));
  }

  lemma {:induction false} SqrtPositive(n: nat)
    requires n > 0
    ensures IntegerSqrt(n) > 0
  {
  }

  /** Whether a tally passes. The source divides by the square root of the electorate, so the
      electorate is not empty. */
  ghost function Approved(t: Threshold, tally: Tally, electorate: nat): bool
    requires electorate > 0
  {
    var voters, all := IntegerSqrt(tally.turnout), IntegerSqrt(electorate);
    if voters == 0 then false
    else match t
      case SuperMajorityApprove => tally.nays * all < tally.ayes * voters
      case SuperMajorityAgainst => tally.nays * voters < tally.ayes * all
      case SimpleMajority => tally.ayes > tally.nays
  }

  method ComputeApproved(t: Threshold, tally: Tally, electorate: nat) returns (r: bool)
    requires electorate > 0
    ensures r == Approved(t, tally, electorate)
  {
    var voters := ComputeSqrt(tally.turnout);
    var all := ComputeSqrt(electorate);
    if voters == 0 { return false; }
    SqrtPositive(electorate);
    match t {
      case SuperMajorityApprove => r := CompareRationals(tally.nays, voters, tally.ayes, all);
      case SuperMajorityAgainst => r := CompareRationals(tally.nays, all, tally.ayes, voters);
      case SimpleMajority => r := tally.ayes > tally.nays;
    }
  }

  /** The three thresholds are ordered by how much they ask for. */
  lemma {:induction false} ThresholdsOrdered(tally: Tally, electorate: nat)
    requires 0 < tally.turnout <= electorate
    ensures Approved(SuperMajorityApprove, tally, electorate) ==> Approved(SimpleMajority, tally, electorate)
    ensures Approved(SimpleMajority, tally, electorate) ==> Approved(SuperMajorityAgainst, tally, electorate)
  {
    var voters, all := IntegerSqrt(tally.turnout), IntegerSqrt(electorate);
    SqrtPositive(tally.turnout);
    SqrtMonotone(tally.turnout, electorate);
    MulLe(voters, all, tally.nays);
    MulLe(voters, all, tally.ayes);
    if tally.ayes <= tally.nays { MulLe(tally.ayes, tally.nays, voters); }
    if tally.nays < tally.ayes { MulLt(tally.nays, tally.ayes, voters); }
  }

  /** An additional aye vote, with whatever delegations stand behind it, never un-passes the first
      two thresholds. */
  lemma {:induction false} AyesHelp(t: Threshold, tally: Tally, v: AccountVote, behind: Delegations, electorate: nat)
    requires electorate > 0 && v.Standard? && v.vote.aye && !t.SuperMajorityAgainst?
    requires Approved(t, tally, electorate)
    ensures Approved(t, tally.Plus(Worth(v, behind)), electorate)
  {
    var after := tally.Plus(Worth(v, behind));
    SqrtMonotone(tally.turnout, after.turnout);
    ProductGrows(tally.ayes, IntegerSqrt(tally.turnout), after.ayes, IntegerSqrt(after.turnout));
  }

  /** An additional nay vote never passes a failing default-carries referendum. An empty turnout
      carries no ayes, because votes are at most six per unit of turnout. */
  lemma {:induction false} NaysNeverCarry(tally: Tally, v: AccountVote, behind: Delegations, electorate: nat)
    requires electorate > 0 && v.Standard? && !v.vote.aye
    requires tally.ayes + tally.nays <= 6 * tally.turnout
    requires !Approved(SuperMajorityAgainst, tally, electorate)
    ensures !Approved(SuperMajorityAgainst, tally.Plus(Worth(v, behind)), electorate)
  {
    var after := tally.Plus(Worth(v, behind));
    SqrtMonotone(tally.turnout, after.turnout);
    if tally.turnout == 0 {
      assert tally.ayes * IntegerSqrt(electorate) == 0;
    } else {
      SqrtPositive(tally.turnout);
      ProductGrows(tally.nays, IntegerSqrt(tally.turnout), after.nays, IntegerSqrt(after.turnout));
    }
  }

  lemma {:induction false} ApprovedWith(t: Threshold, tally: Tally, electorate: nat, voters: nat, all: nat)
    requires electorate > 0 && voters > 0
    requires IsSqrt(tally.turnout, voters) && IsSqrt(electorate, all)
    ensures Approved(t, tally, electorate) == match t
      case SuperMajorityApprove => tally.nays * all < tally.ayes * voters
      case SuperMajorityAgainst => tally.nays * voters < tally.ayes * all
      case SimpleMajority => tally.ayes > tally.nays
  {
    SqrtIs(tally.turnout, voters);
    SqrtIs(electorate, all);
  }

  lemma {:induction false} SmallUnlocked(v: AccountVote)
    requires v.Standard? && v.vote.conviction.Unlocked? && v.balance < 10
    ensures Worth(v, NO_DELEGATIONS) == Tally(0, 0, v.balance)
  {
  }

  lemma {:induction false} SuperMajorityExample(t: Tally, electorate: nat)
    requires t.ayes == 10 && t.nays == 1 && 100 <= t.turnout < 144 && electorate == 10000
    ensures Approved(SuperMajorityApprove, t, electorate) <==> 121 <= t.turnout
  {
    ApprovedWith(SuperMajorityApprove, t, electorate, if t.turnout < 121 then 10 else 11, 100);
  }

  lemma {:induction false} DefaultCarriesExample(t: Tally, electorate: nat)
    requires t.ayes == 1 && t.nays == 9 && 100 <= t.turnout < 144 && electorate == 9801
    ensures Approved(SuperMajorityAgainst, t, electorate) <==> t.turnout < 121
  {
    ApprovedWith(SuperMajorityAgainst, t, electorate, if t.turnout < 121 then 10 else 11, 99);
  }

  lemma {:induction false} NayArithmetic(ayes: nat, nays: nat, more: nat, all: nat, root: nat, root': nat)
    ensures (nays + more) * all < ayes * root' <==> (nays * all - ayes * root) + more * all < ayes * (root' - root)
  {
    Distribute(nays, more, all);
    Distribute(root' - root, root, ayes);
    Commute(ayes, root' - root);
    Commute(ayes, root);
    Commute(ayes, root');
  }

  /** The other two combinations are not monotone. Whatever adds no ayes, such as a nay vote with its
      delegations, carries a failing super-majority referendum if and only if the root of the turnout
      rises far enough: by more, weighted with the ayes, than the referendum was short of plus what
      the added nays weigh. */
  lemma {:induction false} NaysCarryIff(t: Tally, w: Tally, electorate: nat)
    requires electorate > 0 && w.ayes == 0 && !Approved(SuperMajorityApprove, t, electorate)
    ensures var root, root' := IntegerSqrt(t.turnout), IntegerSqrt(t.turnout + w.turnout);
            var all := IntegerSqrt(electorate);
            Approved(SuperMajorityApprove, t.Plus(w), electorate) <==>
              (t.nays * all - t.ayes * root) + w.nays * all < t.ayes * (root' - root)
  {
    var root, root' := IntegerSqrt(t.turnout), IntegerSqrt(t.turnout + w.turnout);
    SqrtMonotone(t.turnout, t.turnout + w.turnout);
    NayArithmetic(t.ayes, t.nays, w.nays, IntegerSqrt(electorate), root, root');
    if root' == 0 { assert t.ayes * root' == 0; }
  }

  lemma {:induction false} AyeArithmetic(nays: nat, ayes: nat, more: nat, all: nat, root: nat, root': nat)
    ensures !(nays * root' < (ayes + more) * all) <==> nays * (root' - root) >= (ayes * all - nays * root) + more * all
  {
    Distribute(ayes, more, all);
    Distribute(root' - root, root, nays);
    Commute(nays, root' - root);
    Commute(nays, root);
    Commute(nays, root');
  }

  /** And whatever adds no nays, such as an aye vote, sinks a passing default-carries referendum if and
      only if the root of the turnout rises, weighted with the nays, by at least what the referendum
      was ahead plus what the added ayes weigh. */
  lemma {:induction false} AyesSinkIff(t: Tally, w: Tally, electorate: nat)
    requires electorate > 0 && w.nays == 0 && Approved(SuperMajorityAgainst, t, electorate)
    ensures var root, root' := IntegerSqrt(t.turnout), IntegerSqrt(t.turnout + w.turnout);
            var all := IntegerSqrt(electorate);
            !Approved(SuperMajorityAgainst, t.Plus(w), electorate) <==>
              t.nays * (root' - root) >= (t.ayes * all - t.nays * root) + w.ayes * all
  {
    var root, root' := IntegerSqrt(t.turnout), IntegerSqrt(t.turnout + w.turnout);
    SqrtMonotone(t.turnout, t.turnout + w.turnout);
    AyeArithmetic(t.nays, t.ayes, w.ayes, IntegerSqrt(electorate), root, root');
    assert t.Plus(w).turnout == t.turnout + w.turnout && root' > 0;
  }

  /** While the root of the turnout does not move, neither can happen. */
  lemma {:induction false} MonotoneWhileRootStays(t: Tally, w: Tally, electorate: nat)
    requires electorate > 0 && IntegerSqrt(t.turnout + w.turnout) == IntegerSqrt(t.turnout)
    ensures w.ayes == 0 && !Approved(SuperMajorityApprove, t, electorate)
        ==> !Approved(SuperMajorityApprove, t.Plus(w), electorate)
    ensures w.nays == 0 && Approved(SuperMajorityAgainst, t, electorate)
        ==> Approved(SuperMajorityAgainst, t.Plus(w), electorate)
  {
    var root, all := IntegerSqrt(t.turnout), IntegerSqrt(electorate);
    assert t.nays * (root - root) == 0 && t.ayes * (root - root) == 0;
    NonNegative(w.nays, all);
    NonNegative(w.ayes, all);
    if w.ayes == 0 && !Approved(SuperMajorityApprove, t, electorate) {
      NaysCarryIff(t, w, electorate);
      if root == 0 { assert t.ayes * root == 0; NonNegative(t.nays, all); }
    }
    if w.nays == 0 && Approved(SuperMajorityAgainst, t, electorate) { AyesSinkIff(t, w, electorate); }
  }

  /** A nay vote adds no ayes and an aye vote no nays, whatever stands behind them. */
  lemma {:induction false} WorthIsOneSided(v: AccountVote, behind: Delegations)
    requires v.Standard?
    ensures v.vote.aye ==> Worth(v, behind).nays == 0
    ensures !v.vote.aye ==> Worth(v, behind).ayes == 0
  {
  }

  /** In particular no standard vote works against its own side while the root of the turnout stays. */
  lemma {:induction false} VotesHelpWhileRootStays(t: Tally, v: AccountVote, behind: Delegations, electorate: nat)
    requires electorate > 0 && v.Standard?
    requires IntegerSqrt(t.turnout + Worth(v, behind).turnout) == IntegerSqrt(t.turnout)
    ensures !v.vote.aye && !Approved(SuperMajorityApprove, t, electorate)
        ==> !Approved(SuperMajorityApprove, t.Plus(Worth(v, behind)), electorate)
    ensures v.vote.aye && Approved(SuperMajorityAgainst, t, electorate)
        ==> Approved(SuperMajorityAgainst, t.Plus(Worth(v, behind)), electorate)
  {
    WorthIsOneSided(v, behind);
    MonotoneWhileRootStays(t, Worth(v, behind), electorate);
  }

  /** A nay vote without conviction that carries a referendum: it raises the turnout more than the
      nays. */
  lemma {:induction false} NayCanCarrySuperMajority(t: Tally, v: AccountVote, electorate: nat)
    requires t.ayes == 10 && t.nays == 1 && t.turnout == 112 && electorate == 10000
    requires v.Standard? && v.vote.conviction.Unlocked? && !v.vote.aye && v.balance == 9
    ensures !Approved(SuperMajorityApprove, t, electorate)
    ensures Approved(SuperMajorityApprove, t.Plus(Worth(v, NO_DELEGATIONS)), electorate)
  {
    SmallUnlocked(v);
    SuperMajorityExample(t, electorate);
    SuperMajorityExample(t.Plus(Worth(v, NO_DELEGATIONS)), electorate);
  }

  /** An aye vote without conviction that sinks a default-carries referendum. */
  lemma {:induction false} AyeCanSinkDefault(t: Tally, v: AccountVote, electorate: nat)
    requires t.ayes == 1 && t.nays == 9 && t.turnout == 112 && electorate == 9801
    requires v.Standard? && v.vote.conviction.Unlocked? && v.vote.aye && v.balance == 9
    ensures Approved(SuperMajorityAgainst, t, electorate)
    ensures !Approved(SuperMajorityAgainst, t.Plus(Worth(v, NO_DELEGATIONS)), electorate)
  {
    SmallUnlocked(v);
    DefaultCarriesExample(t, electorate);
    DefaultCarriesExample(t.Plus(Worth(v, NO_DELEGATIONS)), electorate);
  }
}
