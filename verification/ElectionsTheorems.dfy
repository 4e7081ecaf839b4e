/** What every call of the elections pallet keeps: seats, bonds, prime and reports. */
module ElectionsTheorems {
  import opened Totals
  import opened Elections

  // ------------------------------------------------------- counting in lists

  /** One if the two accounts are the same. */
  ghost function One(x: Account, a: Account): nat { if x == a then 1 else 0 }

  lemma {:induction false} Append(x: seq<SeatHolder>, y: seq<SeatHolder>, a: Account)
    ensures Count(x + y, a) == Count(x, a) + Count(y, a)
    ensures Deposits(x + y, a) == Deposits(x, a) + Deposits(y, a)
  {
    if |y| == 0 {
      assert x + y == x;
    } else {
      Append(x, y[..|y| - 1], a);
      assert (x + y)[..|x + y| - 1] == x + y[..|y| - 1];
    }
  }

  lemma {:induction false} Single(h: SeatHolder, a: Account)
    ensures Count([h], a) == if h.who == a then 1 else 0
    ensures Deposits([h], a) == if h.who == a then h.deposit else 0
  {
  }

  lemma {:induction false} Inserted(hs: seq<SeatHolder>, i: nat, h: SeatHolder, a: Account)
    requires i <= |hs|
    ensures Count(InsertAt(hs, i, h), a) == Count(hs, a) + if h.who == a then 1 else 0
    ensures Deposits(InsertAt(hs, i, h), a) == Deposits(hs, a) + if h.who == a then h.deposit else 0
  {
    Append(hs[..i] + [h], hs[i..], a);
    Append(hs[..i], [h], a);
    Append(hs[..i], hs[i..], a);
    Single(h, a);
    assert hs[..i] + hs[i..] == hs;
  }

  lemma {:induction false} Removed(hs: seq<SeatHolder>, i: nat, a: Account)
    requires i < |hs|
    ensures Count(hs, a) == Count(RemoveAt(hs, i), a) + if hs[i].who == a then 1 else 0
    ensures Deposits(hs, a) == Deposits(RemoveAt(hs, i), a) + if hs[i].who == a then hs[i].deposit else 0
  {
    var rest := RemoveAt(hs, i);
    Inserted(rest, i, hs[i], a);
    assert InsertAt(rest, i, hs[i]) == hs;
  }

  lemma {:induction false} CountListed(hs: seq<SeatHolder>, a: Account)
    ensures Count(hs, a) > 0 <==> Listed(hs, a)
    ensures Count(hs, a) == 0 ==> Deposits(hs, a) == 0
  {
    if |hs| == 0 {
    } else {
      var init := hs[..|hs| - 1];
      CountListed(init, a);
      if Listed(init, a) {
        var i :| 0 <= i < |init| && init[i].who == a;
        assert hs[i].who == a;
      }
      if Listed(hs, a) && hs[|hs| - 1].who != a {
        var i :| 0 <= i < |hs| && hs[i].who == a;
        assert init[i].who == a;
      }
    }
  }

  /** Someone listed once has exactly the deposit recorded there. */
  lemma {:induction false} DepositAt(hs: seq<SeatHolder>, i: nat)
    requires i < |hs| && Count(hs, hs[i].who) <= 1
    ensures Deposits(hs, hs[i].who) == hs[i].deposit && Count(hs, hs[i].who) == 1
  {
    Removed(hs, i, hs[i].who);
    CountListed(RemoveAt(hs, i), hs[i].who);
  }

  lemma {:induction false} RollSplit(s: State, a: Account)
    ensures Count(Roll(s), a) == Count(s.candidates, a) + Count(s.members, a) + Count(s.runnersUp, a)
    ensures Deposits(Roll(s), a) == Deposits(s.candidates, a) + Deposits(s.members, a) + Deposits(s.runnersUp, a)
  {
    Append(s.candidates, s.members + s.runnersUp, a);
    Append(s.members, s.runnersUp, a);
  }

  // ------------------------------------------------------------ sorted lists

  lemma {:induction false} FoundIffListed(hs: seq<SeatHolder>, who: Account)
    requires Sorted(hs)
    ensures Found(hs, who) <==> Listed(hs, who)
  {
  }

  lemma {:induction false} InsertKeepsSorted(hs: seq<SeatHolder>, h: SeatHolder)
    requires Sorted(hs) && !Found(hs, h.who)
    ensures Sorted(InsertAt(hs, Slot(hs, h.who), h))
  {
    var i := Slot(hs, h.who);
    var r := InsertAt(hs, i, h);
    forall j, k | 0 <= j < k < |r| ensures r[j].who < r[k].who {
      assert r[j] == if j < i then hs[j] else if j == i then h else hs[j - 1];
      assert r[k] == if k < i then hs[k] else if k == i then h else hs[k - 1];
    }
  }

  lemma {:induction false} RemoveKeepsSorted(hs: seq<SeatHolder>, i: nat)
    requires Sorted(hs) && i < |hs|
    ensures Sorted(RemoveAt(hs, i))
  {
  }

  lemma {:induction false} SortCounts(hs: seq<SeatHolder>, a: Account)
    ensures Count(SortById(hs), a) == Count(hs, a) && Deposits(SortById(hs), a) == Deposits(hs, a)
  {
    if |hs| == 0 {
    } else {
      var init, h := SortById(hs[..|hs| - 1]), hs[|hs| - 1];
      SortCounts(hs[..|hs| - 1], a);
      Inserted(init, Slot(init, h.who), h, a);
    }
  }

  lemma {:induction false} SortLength(hs: seq<SeatHolder>)
    ensures |SortById(hs)| == |hs|
  {
    if |hs| == 0 {
    } else {
      SortLength(hs[..|hs| - 1]);
    }
  }

  /** Sorting distinct accounts yields a strictly sorted list. */
  lemma {:induction false} SortSorts(hs: seq<SeatHolder>)
    requires forall a :: Count(hs, a) <= 1
    ensures Sorted(SortById(hs))
  {
    if |hs| == 0 {
    } else {
      var init, h := hs[..|hs| - 1], hs[|hs| - 1];
      forall a ensures Count(init, a) <= 1 {
        assert Count(hs, a) <= 1;
      }
      SortSorts(init);
      assert Count(hs, h.who) <= 1;
      SortCounts(init, h.who);
      CountListed(SortById(init), h.who);
      FoundIffListed(SortById(init), h.who);
      InsertKeepsSorted(SortById(init), h);
    }
  }

  lemma {:induction false} ReversedCounts(hs: seq<SeatHolder>, a: Account)
    ensures Count(Reversed(hs), a) == Count(hs, a) && Deposits(Reversed(hs), a) == Deposits(hs, a)
    ensures |Reversed(hs)| == |hs|
  {
    if |hs| == 0 {
    } else {
      ReversedCounts(hs[..|hs| - 1], a);
      Append([hs[|hs| - 1]], Reversed(hs[..|hs| - 1]), a);
      Single(hs[|hs| - 1], a);
    }
  }

  // ------------------------------------------------------- telling the receiver

  lemma {:induction false} IdsListed(hs: seq<SeatHolder>, a: Account)
    ensures a in SetOf(Ids(hs)) <==> Count(hs, a) > 0
  {
    CountListed(hs, a);
    if a in Ids(hs) {
      var i :| 0 <= i < |Ids(hs)| && Ids(hs)[i] == a;
      assert hs[i].who == a;
    }
    if Listed(hs, a) {
      var i :| 0 <= i < |hs| && hs[i].who == a;
      assert Ids(hs)[i] == a;
    }
  }

  lemma {:induction false} MinusHas(xs: seq<Account>, ys: seq<Account>, x: Account)
    ensures x in Minus(xs, ys) <==> x in xs && x !in ys
  {
    if |xs| == 0 {
    } else {
      var init, last := xs[..|xs| - 1], xs[|xs| - 1];
      MinusHas(init, ys, x);
      assert xs == init + [last];
    }
  }

  lemma {:induction false} MinusIs(xs: seq<Account>, ys: seq<Account>)
    ensures SetOf(Minus(xs, ys)) == SetOf(xs) - SetOf(ys)
  {
    forall x ensures x in Minus(xs, ys) <==> x in xs && x !in ys {
      MinusHas(xs, ys, x);
    }
  }

  /** A balanced report keeps the receiver in step with the members. */
  lemma {:induction false} TellKeepsSync(s: State, s': State, incoming: seq<Account>, outgoing: seq<Account>)
    requires InSync(s) && s'.initial == s.initial
    requires s'.reports == s.reports + [Report(incoming, outgoing, Ids(s'.members))]
    requires Balanced(Told(s.initial, s.reports), Report(incoming, outgoing, Ids(s'.members)))
    requires s'.prime.Some? ==> Listed(s'.members, s'.prime.value)
    ensures InSync(s')
  {
  }

  // ------------------------------------------------------------- candidacies

  /** Whoever is not yet standing can submit a candidacy with funds and a good enough witness, and
      no one else. The list is full only beyond the limit: one candidate more than `MaxCandidates`
      is accepted. */
  lemma {:induction false} SubmitAcceptedIff(c: Config, s: State, who: Account, claimed: nat, canHold: bool)
    requires Inv(c, s)
    ensures SubmitCandidacy(c, s, who, claimed, canHold).Ok?
       <==> |s.candidates| <= claimed && |s.candidates| <= c.maxCandidates && Count(Roll(s), who) == 0 && canHold
    ensures SubmitCandidacy(c, s, who, claimed, canHold).Ok? ==>
      var s' := SubmitCandidacy(c, s, who, claimed, canHold).value;
      |s'.candidates| > c.maxCandidates <==> |s.candidates| == c.maxCandidates
  {
    RollSplit(s, who);
    CountListed(s.candidates, who);
    CountListed(s.members, who);
    CountListed(s.runnersUp, who);
    FoundIffListed(s.candidates, who);
    FoundIffListed(s.members, who);
  }

  /** The documented limit is not kept: with a limit of zero a first candidate is still accepted. */
  lemma {:induction false} OneCandidateTooMany(c: Config, s: State, who: Account)
    requires c.maxCandidates == 0 && s.candidates == [] && s.members == [] && s.runnersUp == []
    ensures SubmitCandidacy(c, s, who, 0, true).Ok?
    ensures |SubmitCandidacy(c, s, who, 0, true).value.candidates| == 1 > c.maxCandidates
  {
    assert Slot([], who) == 0;
  }

  /** The account is a new candidate with exactly the bond on hold; every other hold is as before. */
  ghost predicate Stands(c: Config, s: State, s': State, who: Account) {
    && Count(s'.candidates, who) == 1 && Count(Roll(s), who) == 0
    && At(s'.held, who) == c.candidacyBond && Deposits(Roll(s'), who) == c.candidacyBond
    && forall a :: a != who ==> At(s'.held, a) == At(s.held, a)
  }

  lemma {:induction false} SubmitKeepsInvariant(c: Config, s: State, who: Account, claimed: nat, canHold: bool)
    requires Inv(c, s) && SubmitCandidacy(c, s, who, claimed, canHold).Ok?
    ensures Inv(c, SubmitCandidacy(c, s, who, claimed, canHold).value)
    ensures Stands(c, s, SubmitCandidacy(c, s, who, claimed, canHold).value, who)
  {
    var s' := SubmitCandidacy(c, s, who, claimed, canHold).value;
    SubmitAcceptedIff(c, s, who, claimed, canHold);
    InsertKeepsSorted(s.candidates, SeatHolder(who, 0, c.candidacyBond));
    forall a ensures Count(Roll(s'), a) <= 1 && At(s'.held, a) == Deposits(Roll(s'), a) {
      SubmitCounts(c, s, who, claimed, canHold, a);
      assert Count(Roll(s), a) <= 1 && At(s.held, a) == Deposits(Roll(s), a);
    }
    SubmitCounts(c, s, who, claimed, canHold, who);
    RollSplit(s, who);
    CountListed(Roll(s), who);
    assert At(s.held, who) == Deposits(Roll(s), who);
  }

  lemma {:induction false} SubmitCounts(c: Config, s: State, who: Account, claimed: nat, canHold: bool, a: Account)
    requires SubmitCandidacy(c, s, who, claimed, canHold).Ok?
    ensures var s' := SubmitCandidacy(c, s, who, claimed, canHold).value;
            && Count(Roll(s'), a) == Count(Roll(s), a) + (if who == a then 1 else 0)
            && Count(s'.candidates, a) == Count(s.candidates, a) + (if who == a then 1 else 0)
            && Deposits(Roll(s'), a) == Deposits(Roll(s), a) + (if who == a then c.candidacyBond else 0)
  {
    var h := SeatHolder(who, 0, c.candidacyBond);
    RollSplit(s, a);
    RollSplit(SubmitCandidacy(c, s, who, claimed, canHold).value, a);
    Inserted(s.candidates, Slot(s.candidates, who), h, a);
  }

  ghost predicate CountsMove(s: State, s': State, h: SeatHolder, a: Account) {
    && Count(Roll(s), a) == Count(Roll(s'), a) + (if h.who == a then 1 else 0)
    && Deposits(Roll(s), a) == Deposits(Roll(s'), a) + (if h.who == a then h.deposit else 0)
  }

  /** Taking one entry out of the roll and its deposit off the hold. */
  ghost predicate Dropped(s: State, s': State, h: SeatHolder) {
    && s'.held == Slash(s.held, h.who, h.deposit)
    && forall a :: CountsMove(s, s', h, a)
  }

  /** The account is on no list and has no hold left; every other hold is as before. */
  ghost predicate Gone(s: State, s': State, who: Account) {
    && Count(Roll(s'), who) == 0 && At(s'.held, who) == 0
    && forall a :: a != who ==> At(s'.held, a) == At(s.held, a)
  }

  lemma {:induction false} DropKeepsBonds(s: State, s': State, h: SeatHolder)
    requires SeatsDisjoint(s) && BondsExact(s) && Dropped(s, s', h)
    ensures SeatsDisjoint(s') && BondsExact(s')
    ensures h.deposit <= At(s.held, h.who) && Gone(s, s', h.who)
  {
    forall a ensures Count(Roll(s'), a) <= 1 && At(s'.held, a) == Deposits(Roll(s'), a) {
      assert Count(Roll(s), a) <= 1 && At(s.held, a) == Deposits(Roll(s), a) && CountsMove(s, s', h, a);
    }
    assert Count(Roll(s), h.who) <= 1 && At(s.held, h.who) == Deposits(Roll(s), h.who) && CountsMove(s, s', h, h.who);
    CountListed(Roll(s'), h.who);
  }

  lemma {:induction false} HoldCovers(s: State, hs: seq<SeatHolder>, i: nat)
    requires BondsExact(s) && (hs == s.candidates || hs == s.members || hs == s.runnersUp) && i < |hs|
    ensures hs[i].deposit <= At(s.held, hs[i].who)
  {
    RollSplit(s, hs[i].who);
    Removed(hs, i, hs[i].who);
    assert At(s.held, hs[i].who) == Deposits(Roll(s), hs[i].who);
  }

  /** A role can be renounced by exactly those who hold it: the bond is always there to release. */
  lemma {:induction false} RenounceAcceptedIff(c: Config, s: State, who: Account, role: Renouncing)
    requires Inv(c, s)
    ensures Renounce(s, who, role).Ok? <==>
      match role
      case Member => Listed(s.members, who)
      case RunnerUp => Listed(s.runnersUp, who)
      case Candidate(count) => |s.candidates| <= count && Listed(s.candidates, who)
    ensures Renounce(s, who, role) != Err(UnableToReleaseBond)
  {
    FoundIffListed(s.members, who);
    FoundIffListed(s.candidates, who);
    if Found(s.members, who) { HoldCovers(s, s.members, Slot(s.members, who)); }
    if Found(s.candidates, who) { HoldCovers(s, s.candidates, Slot(s.candidates, who)); }
    var i := Position(s.runnersUp, who);
    if i < |s.runnersUp| { HoldCovers(s, s.runnersUp, i); }
  }

  /** Exactly the members can be removed. */
  lemma {:induction false} ReplaceAcceptedIff(c: Config, s: State, who: Account, slash: bool)
    requires Inv(c, s)
    ensures RemoveAndReplace(s, who, slash).Ok? <==> Listed(s.members, who)
  {
    FoundIffListed(s.members, who);
    if Found(s.members, who) { HoldCovers(s, s.members, Slot(s.members, who)); }
  }

  lemma {:induction false} RunnerUpLeaves(c: Config, s: State, who: Account)
    requires Inv(c, s) && Renounce(s, who, RunnerUp).Ok?
    ensures Inv(c, Renounce(s, who, RunnerUp).value)
    ensures Gone(s, Renounce(s, who, RunnerUp).value, who)
  {
    var s', i := Renounce(s, who, RunnerUp).value, Position(s.runnersUp, who);
    forall a ensures CountsMove(s, s', s.runnersUp[i], a) {
      RollSplit(s, a);
      RollSplit(s', a);
      Removed(s.runnersUp, i, a);
    }
    DropKeepsBonds(s, s', s.runnersUp[i]);
  }

  lemma {:induction false} CandidateLeaves(c: Config, s: State, who: Account, count: nat)
    requires Inv(c, s) && Renounce(s, who, Candidate(count)).Ok?
    ensures Inv(c, Renounce(s, who, Candidate(count)).value)
    ensures Gone(s, Renounce(s, who, Candidate(count)).value, who)
  {
    var s', i := Renounce(s, who, Candidate(count)).value, Slot(s.candidates, who);
    forall a ensures CountsMove(s, s', s.candidates[i], a) {
      RollSplit(s, a);
      RollSplit(s', a);
      Removed(s.candidates, i, a);
    }
    DropKeepsBonds(s, s', s.candidates[i]);
    RemoveKeepsSorted(s.candidates, i);
  }

  // --------------------------------------------------------- replacing a member

  lemma {:induction false} OneOut(was: seq<Account>, who: Account, members: seq<SeatHolder>, rest: seq<SeatHolder>)
    requires SetOf(was) == SetOf(Ids(members)) && Count(members, who) == 1
    requires forall a :: Count(members, a) == Count(rest, a) + One(who, a)
    ensures Balanced(was, Report([], [who], Ids(rest)))
  {
    forall a ensures (a in SetOf(was) <==> a in SetOf(Ids(rest)) || a == who) && who !in SetOf(Ids(rest)) {
      IdsListed(members, a);
      IdsListed(rest, a);
      IdsListed(rest, who);
    }
    assert SetOf([who]) == {who} && SetOf([]) == {};
  }

  lemma {:induction false} OneForOne(was: seq<Account>, who: Account, next: Account, members: seq<SeatHolder>,
                                     rest: seq<SeatHolder>)
    requires SetOf(was) == SetOf(Ids(members)) && Count(members, who) == 1 && Count(members, next) == 0
    requires forall a :: Count(members, a) + One(next, a) == Count(rest, a) + One(who, a)
    ensures Balanced(was, Report([next], [who], Ids(rest)))
  {
    forall a
      ensures a in SetOf(was) || a == next <==> a in SetOf(Ids(rest)) || a == who
      ensures who !in SetOf(Ids(rest)) && next !in SetOf(was)
    {
      IdsListed(members, a);
      IdsListed(members, next);
      IdsListed(rest, a);
      IdsListed(rest, who);
    }
    assert SetOf([who]) == {who} && SetOf([next]) == {next};
  }

  /** The seats after a replacement: the member is gone and the best runner-up, who was not a
      member, is in its place in order. */
  lemma {:induction false} ReplaceSeats(c: Config, s: State, who: Account, slash: bool)
    requires Inv(c, s) && RemoveAndReplace(s, who, slash).Ok?
    ensures var s' := RemoveAndReplace(s, who, slash).value;
            var i := Slot(s.members, who);
            && Sorted(s'.members) && |s'.members| <= |s.members| && |s'.runnersUp| <= |s.runnersUp|
            && Dropped(s, s', s.members[i]) && s'.candidates == s.candidates
            && Count(s.members, who) == 1
            && (|s.runnersUp| == 0 ==> forall a :: Count(s.members, a) == Count(s'.members, a) + One(who, a))
            && (|s.runnersUp| > 0 ==>
                  var next := s.runnersUp[|s.runnersUp| - 1].who;
                  && Count(s.members, next) == 0
                  && forall a :: Count(s.members, a) + One(next, a) == Count(s'.members, a) + One(who, a))
  {
    var s', i := RemoveAndReplace(s, who, slash).value, Slot(s.members, who);
    RemoveKeepsSorted(s.members, i);
    OnceInMembers(s, i);
    if |s.runnersUp| == 0 {
      forall a
        ensures CountsMove(s, s', s.members[i], a)
        ensures Count(s.members, a) == Count(s'.members, a) + One(who, a)
      {
        VacateCounts(s, s', i, a);
      }
    } else {
      NextIsNew(s, i);
      var next := s.runnersUp[|s.runnersUp| - 1];
      InsertKeepsSorted(RemoveAt(s.members, i), next);
      forall a
        ensures CountsMove(s, s', s.members[i], a)
        ensures Count(s.members, a) + One(next.who, a) == Count(s'.members, a) + One(who, a)
      {
        RefillCounts(s, s', i, a);
      }
    }
  }

  lemma {:induction false} VacateCounts(s: State, s': State, i: nat, a: Account)
    requires i < |s.members| && s'.members == RemoveAt(s.members, i)
    requires s'.runnersUp == s.runnersUp && s'.candidates == s.candidates
    ensures CountsMove(s, s', s.members[i], a)
    ensures Count(s.members, a) == Count(s'.members, a) + One(s.members[i].who, a)
  {
    Removed(s.members, i, a);
    RollSplit(s, a);
    RollSplit(s', a);
  }

  lemma {:induction false} RefillCounts(s: State, s': State, i: nat, a: Account)
    requires i < |s.members| && |s.runnersUp| > 0 && s'.candidates == s.candidates
    requires s'.runnersUp == s.runnersUp[..|s.runnersUp| - 1]
    requires var rest, next := RemoveAt(s.members, i), s.runnersUp[|s.runnersUp| - 1];
             s'.members == InsertAt(rest, Slot(rest, next.who), next)
    ensures CountsMove(s, s', s.members[i], a)
    ensures Count(s.members, a) + One(s.runnersUp[|s.runnersUp| - 1].who, a)
         == Count(s'.members, a) + One(s.members[i].who, a)
  {
    var rest, next := RemoveAt(s.members, i), s.runnersUp[|s.runnersUp| - 1];
    Removed(s.members, i, a);
    Inserted(rest, Slot(rest, next.who), next, a);
    RollSplit(s, a);
    RollSplit(s', a);
  }

  lemma {:induction false} OnceInMembers(s: State, i: nat)
    requires SeatsDisjoint(s) && i < |s.members|
    ensures Count(s.members, s.members[i].who) == 1
  {
    RollSplit(s, s.members[i].who);
    Removed(s.members, i, s.members[i].who);
    assert Count(Roll(s), s.members[i].who) <= 1;
  }

  /** The replacement is never already a member. */
  lemma {:induction false} NextIsNew(s: State, i: nat)
    requires SeatsDisjoint(s) && Sorted(s.members) && i < |s.members| && |s.runnersUp| > 0
    ensures var next := s.runnersUp[|s.runnersUp| - 1].who;
            Count(s.members, next) == 0 && !Found(RemoveAt(s.members, i), next)
  {
    var next := s.runnersUp[|s.runnersUp| - 1].who;
    RollSplit(s, next);
    assert Count(Roll(s), next) <= 1;
    Removed(s.members, i, next);
    CountListed(RemoveAt(s.members, i), next);
    RemoveKeepsSorted(s.members, i);
    FoundIffListed(RemoveAt(s.members, i), next);
  }

  lemma {:induction false} PrimeStays(s: State, s': State, who: Account, p: Account)
    requires Listed(s.members, p) && p != who && Count(s'.members, p) >= Count(s.members, p)
    ensures Listed(s'.members, p)
  {
    CountListed(s.members, p);
    CountListed(s'.members, p);
  }

  /** Removing a member frees or slashes exactly its bond, keeps everything sorted and disjoint,
      and tells the receiver exactly who left and who came. */
  lemma {:induction false} ReplaceKeepsInvariant(c: Config, s: State, who: Account, slash: bool)
    requires Inv(c, s) && RemoveAndReplace(s, who, slash).Ok?
    ensures Inv(c, RemoveAndReplace(s, who, slash).value)
    ensures Gone(s, RemoveAndReplace(s, who, slash).value, who)
  {
    var s' := RemoveAndReplace(s, who, slash).value;
    ReplaceSeats(c, s, who, slash);
    DropKeepsBonds(s, s', s.members[Slot(s.members, who)]);
    ReplaceKeepsSync(c, s, who, slash);
  }

  /** The best runner-up, if any, is a member afterwards, and no seat stays empty. */
  lemma {:induction false} NextIsSeated(c: Config, s: State, who: Account, slash: bool)
    requires Inv(c, s) && RemoveAndReplace(s, who, slash).Ok? && |s.runnersUp| > 0
    ensures var s' := RemoveAndReplace(s, who, slash).value;
            Count(s'.members, s.runnersUp[|s.runnersUp| - 1].who) == 1 && |s'.members| == |s.members|
  {
    ReplaceSeats(c, s, who, slash);
    NextIsNew(s, Slot(s.members, who));
  }

  lemma {:induction false} ReplaceKeepsSync(c: Config, s: State, who: Account, slash: bool)
    requires Inv(c, s) && RemoveAndReplace(s, who, slash).Ok?
    ensures InSync(RemoveAndReplace(s, who, slash).value)
  {
    var s' := RemoveAndReplace(s, who, slash).value;
    ReplaceSeats(c, s, who, slash);
    ReplaceTells(s, who, slash);
    if |s.runnersUp| == 0 {
      VacateKeepsSync(s, s', who);
    } else {
      RefillKeepsSync(s, s', who, s.runnersUp[|s.runnersUp| - 1].who);
    }
  }

  lemma {:induction false} ReplaceTells(s: State, who: Account, slash: bool)
    requires RemoveAndReplace(s, who, slash).Ok?
    ensures var s' := RemoveAndReplace(s, who, slash).value;
            var incoming := if |s.runnersUp| == 0 then [] else [s.runnersUp[|s.runnersUp| - 1].who];
            && s'.initial == s.initial && s'.reports == s.reports + [Report(incoming, [who], Ids(s'.members))]
            && s'.prime == if s.prime == Some(who) then None else s.prime
  {
  }

  lemma {:induction false} VacateKeepsSync(s: State, s': State, who: Account)
    requires InSync(s) && s'.initial == s.initial && s'.reports == s.reports + [Report([], [who], Ids(s'.members))]
    requires s'.prime.Some? ==> s'.prime == s.prime && s'.prime.value != who
    requires Count(s.members, who) == 1
    requires forall a :: Count(s.members, a) == Count(s'.members, a) + One(who, a)
    ensures InSync(s')
  {
    OneOut(Told(s.initial, s.reports), who, s.members, s'.members);
    if s'.prime.Some? { PrimeStays(s, s', who, s'.prime.value); }
    TellKeepsSync(s, s', [], [who]);
  }

  lemma {:induction false} RefillKeepsSync(s: State, s': State, who: Account, next: Account)
    requires InSync(s) && s'.initial == s.initial && s'.reports == s.reports + [Report([next], [who], Ids(s'.members))]
    requires s'.prime.Some? ==> s'.prime == s.prime && s'.prime.value != who
    requires Count(s.members, who) == 1 && Count(s.members, next) == 0
    requires forall a :: Count(s.members, a) + One(next, a) == Count(s'.members, a) + One(who, a)
    ensures InSync(s')
  {
    OneForOne(Told(s.initial, s.reports), who, next, s.members, s'.members);
    if s'.prime.Some? { PrimeStays(s, s', who, s'.prime.value); }
    TellKeepsSync(s, s', [next], [who]);
  }
}
