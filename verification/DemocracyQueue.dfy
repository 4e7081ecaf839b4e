/** The queue of public proposals of the democracy pallet and the deposits held for them. */
module DemocracyQueue {
  import opened Totals
  import opened DemocracyTypes

  datatype Config = Config(minimumDeposit: nat, maxProposals: nat, maxDeposits: nat)

  datatype Deposit = Deposit(depositors: seq<Account>, amount: nat)

  datatype PublicProp = PublicProp(index: PropIndex, proposal: Proposal, proposer: Account)

  /** `PublicProps`, `PublicPropCount`, `DepositOf`, the `Proposal` holds of the currency, the
      blacklist, and the external proposal waiting to be tabled. */
  datatype Queue = Queue(
    props: seq<PublicProp>,
    propCount: nat,
    deposits: map<PropIndex, Deposit>,
    held: map<Account, nat>,
    blacklist: map<Proposal, nat>,
    nextExternal: Option<(Proposal, Threshold)>,
    lastWasExternal: bool)

  const EMPTY_QUEUE := Queue([], 0, map[], map[], map[], None, false)

  predicate Blacklisted(q: Queue, proposal: Proposal, now: nat) {
    proposal in q.blacklist && now < q.blacklist[proposal]
  }

  function Hold(held: map<Account, nat>, who: Account, amount: nat): map<Account, nat> {
    held[who := At(held, who) + amount]
  }

  /** A best-effort release or a slash: the hold goes down by what is there. */
  function Lower(held: map<Account, nat>, who: Account, amount: nat): map<Account, nat> {
    held[who := SatSub(At(held, who), amount)]
  }

  function LowerAll(held: map<Account, nat>, whos: seq<Account>, amount: nat): map<Account, nat> {
    if |whos| == 0 then held
    else Lower(LowerAll(held, whos[..|whos| - 1], amount), whos[|whos| - 1], amount)
  }

  // ---------------------------------------------------------------- the steps

  /** `canHold` says whether the currency grants the hold. */
  function Propose(c: Config, q: Queue, now: nat, who: Account, proposal: Proposal, value: nat,
                   canHold: bool): Option<Queue> {
    if value < c.minimumDeposit || |q.props| >= c.maxProposals || Blacklisted(q, proposal, now) || !canHold then None
    else Some(q.(
      held := Hold(q.held, who, value),
      deposits := q.deposits[q.propCount := Deposit(if c.maxDeposits == 0 then [] else [who], value)],
      propCount := q.propCount + 1,
      props := q.props + [PublicProp(q.propCount, proposal, who)]))
  }

  function Second(c: Config, q: Queue, who: Account, p: PropIndex, canHold: bool): Option<Queue> {
    if p !in q.deposits || |q.deposits[p].depositors| >= c.maxDeposits || !canHold then None
    else Some(q.(
      held := Hold(q.held, who, q.deposits[p].amount),
      deposits := q.deposits[p := q.deposits[p].(depositors := q.deposits[p].depositors + [who])]))
  }

  /** Take the deposit entry of `p`, if any, and lower the holds of its depositors. */
  function TakeDeposit(q: Queue, p: PropIndex): Queue {
    if p !in q.deposits then q
    else q.(held := LowerAll(q.held, q.deposits[p].depositors, q.deposits[p].amount),
            deposits := q.deposits - {p})
  }

  function Retain(props: seq<PublicProp>, p: PropIndex): seq<PublicProp> {
    if |props| == 0 then []
    else if props[|props| - 1].index == p then Retain(props[..|props| - 1], p)
    else Retain(props[..|props| - 1], p) + [props[|props| - 1]]
  }

  function CancelProposal(q: Queue, p: PropIndex): Queue {
    TakeDeposit(q.(props := Retain(q.props, p)), p)
  }

  /** The position of the first queued proposal with the given hash, or the length of the queue. */
  function Position(props: seq<PublicProp>, proposal: Proposal): (i: nat)
    ensures i <= |props|
    ensures forall j :: 0 <= j < i ==> props[j].proposal != proposal
    ensures i < |props| ==> props[i].proposal == proposal
  {
    if |props| == 0 then 0
    else
      var i := Position(props[..|props| - 1], proposal);
      if i < |props| - 1 || props[|props| - 1].proposal == proposal then i else |props|
  }

  /** The part of `blacklist` that concerns the queue. */
  function BlacklistProposal(q: Queue, proposal: Proposal): Queue {
    var i := Position(q.props, proposal);
    var q' := q.(blacklist := q.blacklist[proposal := MAX_BLOCK]);
    var q'' := if i < |q.props|
               then TakeDeposit(q'.(props := q.props[..i] + q.props[i + 1..]), q.props[i].index)
               else q';
    if q''.nextExternal.Some? && q''.nextExternal.value.0 == proposal then q''.(nextExternal := None) else q''
  }

  function ClearProposals(q: Queue): Queue {
    q.(props := [])
  }

  function Backing(q: Queue, p: PropIndex): nat {
    if p in q.deposits then SatMul(q.deposits[p].amount, |q.deposits[p].depositors|) else 0
  }

  /** The position of the queued proposal with the highest backing, the last one among equals. */
  function BestBacked(q: Queue, n: nat): (best: nat)
    requires 0 < n <= |q.props|
    ensures best < n
    ensures forall i :: 0 <= i < n ==> Backing(q, q.props[i].index) <= Backing(q, q.props[best].index)
    ensures forall i :: best < i < n ==> Backing(q, q.props[i].index) < Backing(q, q.props[best].index)
  {
    if n == 1 then 0
    else
      var best := BestBacked(q, n - 1);
      if Backing(q, q.props[best].index) <= Backing(q, q.props[n - 1].index) then n - 1 else best
  }

  function SwapRemove<T>(s: seq<T>, i: nat): seq<T>
    requires i < |s|
  {
    if i == |s| - 1 then s[..i] else s[i := s[|s| - 1]][..|s| - 1]
  }

  // --------------------------------------------------------------- the ledger

  /** What `whos` as depositors of `amount` each means for one account. */
  ghost function Share(whos: seq<Account>, amount: nat, a: Account): nat {
    if |whos| == 0 then 0
    else Share(whos[..|whos| - 1], amount, a) + if whos[|whos| - 1] == a then amount else 0
  }

  /** A share is the deposit times the number of times the account appears. */
  lemma {:induction false} ShareCounts(whos: seq<Account>, amount: nat, a: Account)
    ensures Share(whos, amount, a) == multiset(whos)[a] * amount
  {
    if |whos| == 0 {
    } else {
      var init: seq<Account> := whos[..|whos| - 1];
      var last := whos[|whos| - 1];
      ShareCounts(init, amount, a);
      assert whos == init + [last];
      assert multiset(whos) == multiset(init) + multiset{last};
      OneMore(multiset(init)[a], amount);
    }
  }

  lemma {:induction false} OneMore(n: nat, amount: nat)
    ensures (n + 1) * amount == n * amount + amount
  {
  }

  lemma {:induction false} OneMoreBacks(amount: nat, n: nat)
    ensures SatMul(amount, n + 1) == SatAdd(SatMul(amount, n), amount)
  {
    assert amount * (n + 1) == amount * n + amount;
  }

  lemma {:induction false} ShareOne(who: Account, amount: nat, a: Account)
    ensures Share([who], amount, a) == if who == a then amount else 0
  {
  }

  ghost function Shares(deposits: map<PropIndex, Deposit>, a: Account): map<PropIndex, nat> {
    map p | p in deposits :: Share(deposits[p].depositors, deposits[p].amount, a)
  }

  /** Everything the pallet owes `a`, over all deposit entries. */
  ghost function Owed(deposits: map<PropIndex, Deposit>, a: Account): nat {
    Total(Shares(deposits, a))
  }

  /** For every deposit entry, the deposit times the number of times the account appears in it. */
  ghost function Appearances(deposits: map<PropIndex, Deposit>, a: Account): map<PropIndex, nat> {
    map p | p in deposits :: multiset(deposits[p].depositors)[a] * deposits[p].amount
  }

  /** Every hold is the sum, over all deposit entries, of the deposit times the number of times the
      account appears among the depositors. */
  lemma {:induction false} LedgerByMultiplicity(q: Queue, a: Account)
    requires LedgerExact(q)
    ensures At(q.held, a) == Total(Appearances(q.deposits, a))
  {
    forall p | p in q.deposits ensures Appearances(q.deposits, a)[p] == Shares(q.deposits, a)[p] {
      ShareCounts(q.deposits[p].depositors, q.deposits[p].amount, a);
    }
    assert Appearances(q.deposits, a) == Shares(q.deposits, a);
  }

  ghost predicate LedgerExact(q: Queue) {
    forall a :: At(q.held, a) == Owed(q.deposits, a)
  }

  ghost predicate QueueInv(q: Queue) {
    && LedgerExact(q)
    && (forall p :: p in q.deposits ==> p < q.propCount)
    && (forall i :: 0 <= i < |q.props| ==> q.props[i].index in q.deposits)
    && (forall i, j :: 0 <= i < j < |q.props| ==> q.props[i].index != q.props[j].index)
  }

  lemma {:induction false} ShareAppend(whos: seq<Account>, amount: nat, who: Account, a: Account)
    ensures Share(whos + [who], amount, a) == Share(whos, amount, a) + if who == a then amount else 0
  {
  }

  lemma {:induction false} OwedUpdate(deposits: map<PropIndex, Deposit>, p: PropIndex, d: Deposit, a: Account)
    ensures Owed(deposits[p := d], a) + At(Shares(deposits, a), p)
         == Owed(deposits, a) + Share(d.depositors, d.amount, a)
  {
    TotalUpdate(Shares(deposits, a), p, Share(d.depositors, d.amount, a));
    assert Shares(deposits[p := d], a) == Shares(deposits, a)[p := Share(d.depositors, d.amount, a)];
  }

  lemma {:induction false} OwedTake(deposits: map<PropIndex, Deposit>, p: PropIndex, a: Account)
    requires p in deposits
    ensures Owed(deposits, a) == Owed(deposits - {p}, a) + Share(deposits[p].depositors, deposits[p].amount, a)
  {
    TotalSplit(Shares(deposits, a), p);
    assert Shares(deposits - {p}, a) == Shares(deposits, a) - {p};
  }

  /** Lowering the holds of covered depositors takes exactly their shares: no slash or release
      leaves a remainder. */
  lemma {:induction false} LowerAllExact(held: map<Account, nat>, whos: seq<Account>, amount: nat)
    requires forall a :: Share(whos, amount, a) <= At(held, a)
    ensures forall a :: At(LowerAll(held, whos, amount), a) + Share(whos, amount, a) == At(held, a)
  {
    if |whos| == 0 {
    } else {
      var init, last := whos[..|whos| - 1], whos[|whos| - 1];
      forall a ensures Share(init, amount, a) <= At(held, a) {
        assert Share(init, amount, a) <= Share(whos, amount, a);
      }
      LowerAllExact(held, init, amount);
      forall a ensures At(LowerAll(held, whos, amount), a) + Share(whos, amount, a) == At(held, a) {
        assert At(LowerAll(held, init, amount), a) + Share(init, amount, a) == At(held, a);
        assert Share(whos, amount, a) <= At(held, a);
      }
    }
  }

  /** Taking a deposit entry lowers every hold by the deposit times the appearances in that entry. */
  lemma {:induction false} TakeExact(q: Queue, p: PropIndex, a: Account)
    requires LedgerExact(q) && p in q.deposits
    ensures At(TakeDeposit(q, p).held, a) + multiset(q.deposits[p].depositors)[a] * q.deposits[p].amount
        == At(q.held, a)
  {
    var d := q.deposits[p];
    forall x ensures Share(d.depositors, d.amount, x) <= At(q.held, x) {
      OwedTake(q.deposits, p, x);
    }
    LowerAllExact(q.held, d.depositors, d.amount);
    ShareCounts(d.depositors, d.amount, a);
  }

  lemma {:induction false} TakeKeepsLedger(q: Queue, p: PropIndex)
    requires LedgerExact(q)
    ensures LedgerExact(TakeDeposit(q, p))
  {
    if p in q.deposits {
      var d := q.deposits[p];
      var q' := TakeDeposit(q, p);
      forall a ensures Share(d.depositors, d.amount, a) <= At(q.held, a) {
        OwedTake(q.deposits, p, a);
      }
      LowerAllExact(q.held, d.depositors, d.amount);
      forall a ensures At(q'.held, a) == Owed(q'.deposits, a) {
        OwedTake(q.deposits, p, a);
      }
    }
  }

  lemma {:induction false} ProposeKeepsInvariant(c: Config, q: Queue, now: nat, who: Account, proposal: Proposal,
                                                 value: nat, canHold: bool)
    requires QueueInv(q) && c.maxDeposits > 0
    requires Propose(c, q, now, who, proposal, value, canHold).Some?
    ensures QueueInv(Propose(c, q, now, who, proposal, value, canHold).value)
  {
    var q' := Propose(c, q, now, who, proposal, value, canHold).value;
    NewDepositExact(q, who, value);
    assert q'.props[..|q.props|] == q.props;
  }

  lemma {:induction false} NewDepositExact(q: Queue, who: Account, value: nat)
    requires QueueInv(q)
    ensures LedgerExact(q.(held := Hold(q.held, who, value),
                           deposits := q.deposits[q.propCount := Deposit([who], value)]))
  {
    var held, deposits := Hold(q.held, who, value), q.deposits[q.propCount := Deposit([who], value)];
    forall a ensures At(held, a) == Owed(deposits, a) {
      OwedUpdate(q.deposits, q.propCount, Deposit([who], value), a);
      ShareOne(who, value, a);
      assert At(q.held, a) == Owed(q.deposits, a);
    }
  }

  /** With a configured limit of zero depositors the pallet would hold a deposit it never records:
      proposing keeps the ledger exact if and only if the limit is positive or nothing is held. */
  lemma {:induction false} ProposeExactIff(c: Config, q: Queue, now: nat, who: Account, proposal: Proposal, value: nat)
    requires QueueInv(q) && Propose(c, q, now, who, proposal, value, true).Some?
    ensures LedgerExact(Propose(c, q, now, who, proposal, value, true).value) <==> c.maxDeposits > 0 || value == 0
  {
    var q' := Propose(c, q, now, who, proposal, value, true).value;
    if c.maxDeposits > 0 {
      ProposeKeepsInvariant(c, q, now, who, proposal, value, true);
    } else {
      forall a ensures Owed(q'.deposits, a) == Owed(q.deposits, a) {
        OwedUpdate(q.deposits, q.propCount, Deposit([], value), a);
      }
      assert At(q.held, who) == Owed(q.deposits, who);
      if value == 0 {
        forall a ensures At(q'.held, a) == Owed(q'.deposits, a) {
          assert At(q.held, a) == Owed(q.deposits, a);
        }
      }
    }
  }

  lemma {:induction false} SecondKeepsInvariant(c: Config, q: Queue, who: Account, p: PropIndex, canHold: bool)
    requires QueueInv(q) && Second(c, q, who, p, canHold).Some?
    ensures QueueInv(Second(c, q, who, p, canHold).value)
  {
    var q' := Second(c, q, who, p, canHold).value;
    var d := q.deposits[p];
    forall a ensures At(q'.held, a) == Owed(q'.deposits, a) {
      OwedUpdate(q.deposits, p, q'.deposits[p], a);
      ShareAppend(d.depositors, d.amount, who, a);
      assert At(q.held, a) == Owed(q.deposits, a);
    }
  }

  /** `Retain` keeps exactly the other proposals, in order and without repetition. */
  lemma {:induction false} RetainKeeps(props: seq<PublicProp>, p: PropIndex)
    requires forall i, j :: 0 <= i < j < |props| ==> props[i].index != props[j].index
    ensures forall x :: x in Retain(props, p) <==> x in props && x.index != p
    ensures forall i, j :: 0 <= i < j < |Retain(props, p)| ==> Retain(props, p)[i].index != Retain(props, p)[j].index
  {
    if |props| == 0 {
    } else {
      var init, last := props[..|props| - 1], props[|props| - 1];
      RetainKeeps(init, p);
      assert props == init + [last];
      forall i | 0 <= i < |Retain(init, p)| ensures Retain(init, p)[i].index != last.index {
        assert Retain(init, p)[i] in init;
      }
    }
  }

  lemma {:induction false} CancelKeepsInvariant(q: Queue, p: PropIndex)
    requires QueueInv(q)
    ensures QueueInv(CancelProposal(q, p))
    ensures forall x :: x in CancelProposal(q, p).props <==> x in q.props && x.index != p
  {
    RetainKeeps(q.props, p);
    TakeKeepsLedger(q.(props := Retain(q.props, p)), p);
    forall i | 0 <= i < |Retain(q.props, p)| ensures Retain(q.props, p)[i].index in q.deposits - {p} {
      assert Retain(q.props, p)[i] in q.props;
    }
  }

  lemma {:induction false} BlacklistKeepsInvariant(q: Queue, proposal: Proposal)
    requires QueueInv(q)
    ensures QueueInv(BlacklistProposal(q, proposal))
  {
    var i := Position(q.props, proposal);
    if i < |q.props| {
      TakeKeepsLedger(q.(blacklist := q.blacklist[proposal := MAX_BLOCK], props := q.props[..i] + q.props[i + 1..]),
                      q.props[i].index);
    }
  }

  /** Blacklisting takes the first matching proposal off the queue and nothing else, slashes its deposit
      by appearances, and leaves no matching external proposal waiting. The proposal cannot be proposed
      again before the last block. */
  lemma {:induction false} BlacklistExact(c: Config, q: Queue, proposal: Proposal, i: nat)
    requires QueueInv(q) && i <= |q.props| && (forall j :: 0 <= j < i ==> q.props[j].proposal != proposal)
    requires i < |q.props| ==> q.props[i].proposal == proposal
    ensures var q' := BlacklistProposal(q, proposal);
            && q'.nextExternal == (if q.nextExternal.Some? && q.nextExternal.value.0 == proposal then None
                                   else q.nextExternal)
            && (forall now: nat, who: Account, value: nat, canHold: bool :: now < MAX_BLOCK ==>
                  Propose(c, q', now, who, proposal, value, canHold) == None)
            && (i == |q.props| ==> q'.props == q.props && q'.deposits == q.deposits && q'.held == q.held)
            && (i < |q.props| ==>
                  var p := q.props[i].index;
                  && q'.props == q.props[..i] + q.props[i + 1..] && q'.deposits == q.deposits - {p}
                  && forall a :: At(q'.held, a) + multiset(q.deposits[p].depositors)[a] * q.deposits[p].amount
                                 == At(q.held, a))
  {
    var q' := BlacklistProposal(q, proposal);
    assert Position(q.props, proposal) == i;
    if i < |q.props| {
      var p := q.props[i].index;
      forall a
        ensures At(q'.held, a) + multiset(q.deposits[p].depositors)[a] * q.deposits[p].amount == At(q.held, a)
      {
        TakeExact(q, p, a);
      }
    }
  }
}
