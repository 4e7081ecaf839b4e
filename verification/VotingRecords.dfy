/** The stored form of an account's votes: a vector sorted by referendum index, searched by bisection. */
module VotingRecords {
  import opened Totals
  import opened DemocracyTypes
  import opened DemocracyVoting

  type VoteVec = seq<(RefIndex, AccountVote)>

  datatype Record =
    | DirectRecord(votes: VoteVec, delegations: Delegations, prior: PriorLock)
    | DelegatingRecord(balance: nat, target: Account, conviction: Conviction,
                       delegations: Delegations, prior: PriorLock)

  const IDLE_RECORD := DirectRecord([], NO_DELEGATIONS, NO_LOCK)

  predicate Sorted(s: VoteVec) {
    forall i, j :: 0 <= i < j < |s| ==> s[i].0 < s[j].0
  }

  predicate RecordSorted(v: Record) {
    v.DirectRecord? ==> Sorted(v.votes)
  }

  /** The vector read as a map from referendum to vote. */
  function AsMap(s: VoteVec): map<RefIndex, AccountVote> {
    if |s| == 0 then map[] else AsMap(s[..|s| - 1])[s[|s| - 1].0 := s[|s| - 1].1]
  }

  function Abstract(v: Record): Voting {
    match v
    case DirectRecord(votes, d, p) => Direct(AsMap(votes), d, p)
    case DelegatingRecord(balance, target, conviction, d, p) => Delegating(balance, target, conviction, d, p)
  }

  function RecordAt(m: map<Account, Record>, a: Account): Record {
    if a in m then m[a] else IDLE_RECORD
  }

  function AbstractAll(m: map<Account, Record>): map<Account, Voting> {
    map a | a in m :: Abstract(m[a])
  }

  lemma {:induction false} AbstractAt(m: map<Account, Record>, a: Account)
    ensures VotingAt(AbstractAll(m), a) == Abstract(RecordAt(m, a))
  {
  }

  lemma {:induction false} AbstractUpdate(m: map<Account, Record>, a: Account, v: Record)
    ensures AbstractAll(m[a := v]) == AbstractAll(m)[a := Abstract(v)]
  {
  }

  /** A referendum is in the map exactly when it is in the vector. */
  lemma {:induction false} KeysOf(s: VoteVec)
    ensures forall r :: r in AsMap(s) <==> exists i :: 0 <= i < |s| && s[i].0 == r
  {
    if |s| == 0 {
    } else {
      var init, last := s[..|s| - 1], s[|s| - 1];
      KeysOf(init);
      assert forall i :: 0 <= i < |init| ==> init[i] == s[i];
    }
  }

  lemma {:induction false} ValueOf(s: VoteVec, i: nat)
    requires Sorted(s) && i < |s|
    ensures s[i].0 in AsMap(s) && AsMap(s)[s[i].0] == s[i].1
  {
    if i < |s| - 1 {
      ValueOf(s[..|s| - 1], i);
      assert s[..|s| - 1][i] == s[i];
    }
  }

  lemma {:induction false} SizeOf(s: VoteVec)
    requires Sorted(s)
    ensures |AsMap(s)| == |s|
  {
    if |s| == 0 {
    } else {
      var init, last := s[..|s| - 1], s[|s| - 1];
      SizeOf(init);
      KeysOf(init);
      assert forall i :: 0 <= i < |init| ==> init[i] == s[i];
      assert last.0 !in AsMap(init);
      assert AsMap(s).Keys == AsMap(init).Keys + {last.0};
      assert |AsMap(s).Keys| == |AsMap(init).Keys| + 1;
    }
  }

  function InsertAt(s: VoteVec, i: nat, r: RefIndex, v: AccountVote): VoteVec
    requires i <= |s|
  {
    s[..i] + [(r, v)] + s[i..]
  }

  function RemoveAt(s: VoteVec, i: nat): VoteVec
    requires i < |s|
  {
    s[..i] + s[i + 1..]
  }

  ghost predicate FoundAt(s: VoteVec, r: RefIndex, i: nat) {
    i < |s| && s[i].0 == r
  }

  /** Where `r` belongs: everything before is smaller, everything from there on is larger. */
  ghost predicate BelongsAt(s: VoteVec, r: RefIndex, i: nat) {
    && i <= |s|
    && (forall j :: 0 <= j < i ==> s[j].0 < r)
    && (forall j :: i <= j < |s| ==> r < s[j].0)
  }

  lemma {:induction false} NotInMap(s: VoteVec, r: RefIndex, i: nat)
    requires BelongsAt(s, r, i)
    ensures r !in AsMap(s)
  {
    KeysOf(s);
  }

  lemma {:induction false} InsertSorted(s: VoteVec, i: nat, r: RefIndex, v: AccountVote)
    requires Sorted(s) && BelongsAt(s, r, i)
    ensures Sorted(InsertAt(s, i, r, v))
  {
  }

  lemma {:induction false} InsertIsUpdate(s: VoteVec, i: nat, r: RefIndex, v: AccountVote)
    requires i <= |s| && forall j :: i <= j < |s| ==> s[j].0 != r
    ensures AsMap(InsertAt(s, i, r, v)) == AsMap(s)[r := v]
  {
    var t, n := InsertAt(s, i, r, v), |s|;
    if i == n {
      assert t == s + [(r, v)] && t[..n] == s;
    } else {
      assert t[..n] == InsertAt(s[..n - 1], i, r, v) && t[n] == s[n - 1];
      InsertIsUpdate(s[..n - 1], i, r, v);
    }
  }

  lemma {:induction false} OverwriteIsUpdate(s: VoteVec, i: nat, r: RefIndex, v: AccountVote)
    requires Sorted(s) && FoundAt(s, r, i)
    ensures Sorted(s[i := (r, v)])
    ensures AsMap(s[i := (r, v)]) == AsMap(s)[r := v]
  {
    var t, n := s[i := (r, v)], |s|;
    if i == n - 1 {
      assert t[..n - 1] == s[..n - 1];
    } else {
      assert t[..n - 1] == s[..n - 1][i := (r, v)];
      OverwriteIsUpdate(s[..n - 1], i, r, v);
    }
  }

  lemma {:induction false} RemoveSorted(s: VoteVec, i: nat)
    requires Sorted(s) && i < |s|
    ensures Sorted(RemoveAt(s, i))
  {
  }

  lemma {:induction false} AbsentFrom(s: VoteVec, r: RefIndex)
    requires forall j :: 0 <= j < |s| ==> s[j].0 != r
    ensures r !in AsMap(s)
  {
    KeysOf(s);
  }

  lemma {:induction false} RemoveIsDelete(s: VoteVec, i: nat, r: RefIndex)
    requires FoundAt(s, r, i) && forall j :: 0 <= j < |s| && j != i ==> s[j].0 != r
    ensures AsMap(RemoveAt(s, i)) == AsMap(s) - {r}
  {
    var t, n := RemoveAt(s, i), |s|;
    if i == n - 1 {
      assert t == s[..n - 1];
      AbsentFrom(t, r);
    } else {
      assert t[..n - 2] == RemoveAt(s[..n - 1], i) && t[n - 2] == s[n - 1];
      RemoveIsDelete(s[..n - 1], i, r);
    }
  }

  /** `binary_search_by_key` on the referendum index. */
  method BinarySearch(s: VoteVec, r: RefIndex) returns (found: bool, i: nat)
    requires Sorted(s)
    ensures found ==> FoundAt(s, r, i)
    ensures !found ==> BelongsAt(s, r, i)
  {
    var lo, hi := 0, |s|;
    while lo < hi
      invariant 0 <= lo <= hi <= |s|
      invariant forall j :: 0 <= j < lo ==> s[j].0 < r
      invariant forall j :: hi <= j < |s| ==> r < s[j].0
    {
      var mid := (lo + hi) / 2;
      if s[mid].0 == r {
        return true, mid;
      } else if s[mid].0 < r {
        lo := mid + 1;
      } else {
        hi := mid;
      }
    }
    return false, lo;
  }

  /** Overwrite the vote on `r`, or insert it where it keeps the vector sorted. */
  method PlaceVote(s: VoteVec, r: RefIndex, vote: AccountVote) returns (replaced: Option<AccountVote>, s': VoteVec)
    requires Sorted(s)
    ensures Sorted(s') && AsMap(s') == AsMap(s)[r := vote] && |AsMap(s)| == |s|
    ensures replaced == if r in AsMap(s) then Some(AsMap(s)[r]) else None
  {
    var found, i := BinarySearch(s, r);
    SizeOf(s);
    if found {
      ValueOf(s, i);
      OverwriteIsUpdate(s, i, r, vote);
      replaced, s' := Some(s[i].1), s[i := (r, vote)];
    } else {
      NotInMap(s, r, i);
      InsertSorted(s, i, r, vote);
      InsertIsUpdate(s, i, r, vote);
      replaced, s' := None, InsertAt(s, i, r, vote);
    }
  }

  /** The amount that must be frozen, computed by folding over the vector. */
  method LockedBalance(v: Record) returns (amount: nat)
    requires RecordSorted(v)
    ensures amount == Abstract(v).LockedBalance()
  {
    match v
    case DelegatingRecord(balance, _, _, _, prior) =>
      amount := Max(balance, prior.amount);
    case DirectRecord(votes, _, prior) =>
      amount := prior.amount;
      for i := 0 to |votes|
        invariant prior.amount <= amount
        invariant forall j :: 0 <= j < i ==> votes[j].1.Balance() <= amount
        invariant amount == prior.amount || exists j :: 0 <= j < i && votes[j].1.Balance() == amount
      {
        amount := Max(amount, votes[i].1.Balance());
      }
      LargestOf(v, amount);
  }

  lemma {:induction false} LargestOf(v: Record, amount: nat)
    requires v.DirectRecord? && Sorted(v.votes) && v.prior.amount <= amount
    requires forall j :: 0 <= j < |v.votes| ==> v.votes[j].1.Balance() <= amount
    requires amount == v.prior.amount || exists j :: 0 <= j < |v.votes| && v.votes[j].1.Balance() == amount
    ensures amount == Abstract(v).LockedBalance()
  {
    var w := Abstract(v).Balances();
    KeysOf(v.votes);
    forall j | 0 <= j < |v.votes| ensures v.votes[j].0 in w && w[v.votes[j].0] == v.votes[j].1.Balance() {
      ValueOf(v.votes, j);
    }
    forall r | r in w ensures w[r] <= amount {
      var j :| 0 <= j < |v.votes| && v.votes[j].0 == r;
    }
  }
}
