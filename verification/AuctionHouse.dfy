/** The bucket as an object, and the two loops that walk it upwards: splitting a bid, and quoting
    how many tokens a ticket buys. */
module AuctionHouse {
  import opened Totals
  import opened Arithmetic
  import opened Auction

  lemma {:induction false} NextRung(b: Lot, k: nat)
    requires Rung(b, k) && b.currentPrice + b.deltaPrice <= MAX_BALANCE
    ensures Rung(b.Next(), k + 1)
    ensures Above(b.Next(), k + 1) == Above(b, k) + if k == 0 then 0 else b.amountLeft
  {
    Distribute(k, 1, b.deltaPrice);
    if k > 0 { Distribute(k - 1, 1, b.deltaAmount); }
  }

  class Bucket {
    var amountLeft: nat
    var currentPrice: Price
    const initialPrice: Price
    const deltaPrice: Price
    const deltaAmount: nat

    ghost function View(): Lot
      reads this
    {
      Lot(amountLeft, currentPrice, initialPrice, deltaPrice, deltaAmount)
    }

    constructor (lot: Lot)
      ensures View() == lot
    {
      amountLeft, currentPrice := lot.amountLeft, lot.currentPrice;
      initialPrice, deltaPrice, deltaAmount := lot.initialPrice, lot.deltaPrice, lot.deltaAmount;
    }

    /** Selling what the bucket can cover: wherever on a ladder it stood, it now stands exactly that
        many tokens further up. Removing more than it has is like removing all it has. */
    method Update(removed: nat)
      modifies this
      ensures View() == old(View()).Update(removed)
      ensures removed <= old(amountLeft) ==>
        forall o: Lot, sold: nat ::
          o.Open() && old(View()) == After(o, sold) ==> View() == After(o, sold + removed)
      ensures removed >= old(amountLeft) ==> View() == old(View()).Update(old(amountLeft))
      ensures old(View()).Open() ==> View().Open()
    {
      ghost var before := View();
      amountLeft := SatSub(amountLeft, removed);
      if amountLeft == 0 { Next(); }
      assert View() == before.Update(removed);
      if removed <= before.amountLeft {
        forall o: Lot, sold: nat | o.Open() && before == After(o, sold)
          ensures View() == After(o, sold + removed)
        {
          SellMoves(o, sold, removed);
        }
      }
    }

    /** One price step up, to a full bucket: nothing of it is sold, and as many tokens lie above the
        first price as before together with what was left. */
    method Next()
      modifies this
      ensures View() == old(View()).Next()
      ensures forall k: nat ::
        Rung(old(View()), k) && old(currentPrice) + deltaPrice <= MAX_BALANCE ==>
          Rung(View(), k + 1)
          && Above(View(), k + 1) == Above(old(View()), k) + (if k == 0 then 0 else old(amountLeft))
    {
      ghost var before := View();
      amountLeft := deltaAmount;
      currentPrice := SatAdd(currentPrice, deltaPrice);
      forall k: nat | Rung(before, k) && before.currentPrice + deltaPrice <= MAX_BALANCE
        ensures Rung(View(), k + 1)
        ensures Above(View(), k + 1) == Above(before, k) + (if k == 0 then 0 else before.amountLeft)
      {
        NextRung(before, k);
      }
    }

    /** `None` stands for the division by zero. */
    method CalculateWap(totalAmount: nat) returns (wap: Option<Price>)
      requires currentPrice != initialPrice ==> deltaPrice > 0
      ensures wap == Wap(View(), totalAmount)
    {
      if currentPrice == initialPrice { return Some(currentPrice); }
      var total: nat, amount: nat, price: nat := totalAmount, SatSub(deltaAmount, amountLeft), currentPrice;
      var levels: seq<Level> := [];
      while price > initialPrice && total > 0
        invariant levels + Walk(View(), price, amount, total) == Levels(View(), totalAmount)
        decreases price
      {
        total := SatSub(total, amount);
        levels := levels + [Level(amount, price)];
        price := SatSub(price, deltaPrice);
        amount := deltaAmount;
      }
      if total > 0 { levels := levels + [Level(total, initialPrice)]; }
      assert levels == Levels(View(), totalAmount);
      if |levels| == 0 { return Some(0); }
      var sum := UsdSum(levels);
      wap := if sum == 0 then None else Some(Average(levels, sum));
    }
  }

  // ------------------------------------------------------------ splitting a bid

  /** A bid takes what is left of each lot in turn, at that lot's price. */
  function Bids(o: Lot, amount: nat): seq<Level>
    requires o.Open()
    decreases amount
  {
    if amount == 0 then []
    else
      var n := Min(amount, o.amountLeft);
      [Level(n, o.currentPrice)] + Bids(o.Update(n), amount - n)
  }

  /** The split parts make up the bid, and each is priced where the ladder then stands. */
  lemma {:induction false} BidsAddUp(o: Lot, amount: nat)
    requires o.Open()
    ensures Amounts(Bids(o, amount)) == amount
    ensures forall i :: 0 <= i < |Bids(o, amount)| ==>
      var before := Amounts(Bids(o, amount)[..i]);
      && 0 < Bids(o, amount)[i].amount <= After(o, before).amountLeft
      && Bids(o, amount)[i].price == After(o, before).currentPrice
    decreases amount
  {
    if amount == 0 {
    } else {
      var n := Min(amount, o.amountLeft);
      var bids, rest := Bids(o, amount), Bids(o.Update(n), amount - n);
      BidsAddUp(o.Update(n), amount - n);
      assert bids[1..] == rest;
      forall i | 0 <= i < |bids|
        ensures 0 < bids[i].amount <= After(o, Amounts(bids[..i])).amountLeft
        ensures bids[i].price == After(o, Amounts(bids[..i])).currentPrice
      {
        if i > 0 {
          var before := Amounts(rest[..i - 1]);
          assert bids[..i][1..] == rest[..i - 1];
          AfterTwice(o, n, before);
        }
      }
    }
  }

  lemma {:induction false} AfterNothing(o: Lot)
    requires o.Open()
    ensures After(o, 0) == o
  {
  }

  /** Selling on from where an earlier sale left the ladder. */
  lemma {:induction false} AfterTwice(o: Lot, n: nat, more: nat)
    requires o.Open() && n <= o.amountLeft
    ensures o.Update(n).Open() && After(o.Update(n), more) == After(o, n + more)
    decreases more
  {
    AfterNothing(o);
    SellMoves(o, 0, n);
    var b := o.Update(n);
    if more == 0 {
      AfterNothing(b);
    } else {
      var step := 1;
      AfterTwice(o, n, more - 1);
      SellMoves(b, more - 1, step);
      SellMoves(o, n + more - 1, step);
    }
  }

  /** The lot on offer after a bid. */
  function LeftAfter(o: Lot, amount: nat): Lot
    requires o.Open()
    decreases amount
  {
    if amount == 0 then o
    else
      var n := Min(amount, o.amountLeft);
      LeftAfter(o.Update(n), amount - n)
  }

  lemma {:induction false} BidSells(o: Lot, amount: nat)
    requires o.Open()
    ensures LeftAfter(o, amount) == After(o, amount)
    decreases amount
  {
    if amount == 0 {
      AfterNothing(o);
    } else {
      var n := Min(amount, o.amountLeft);
      AfterTwice(o, n, amount - n);
      BidSells(o.Update(n), amount - n);
    }
  }

  method SplitBid(bucket: Bucket, amount: nat) returns (bids: seq<Level>)
    requires bucket.View().Open()
    modifies bucket
    ensures bids == Bids(old(bucket.View()), amount)
    ensures bucket.View() == After(old(bucket.View()), amount)
  {
    ghost var o := bucket.View();
    var toBid: nat := amount;
    bids := [];
    BidSells(o, amount);
    while toBid > 0
      invariant bucket.View().Open()
      invariant LeftAfter(bucket.View(), toBid) == LeftAfter(o, amount)
      invariant bids + Bids(bucket.View(), toBid) == Bids(o, amount)
    {
      var n := if toBid <= bucket.amountLeft then toBid else bucket.amountLeft;
      bids := bids + [Level(n, bucket.currentPrice)];
      bucket.Update(n);
      toBid := SatSub(toBid, n);
    }
  }

  // ------------------------------------------------------------ quoting a ticket

  function Affordable(price: Price, usd: nat): nat
    requires price > 0
  {
    MulInt(Reciprocal(price).value, usd)
  }

  /** What a ticket buys, lot by lot; a step that costs nothing is charged one unit. */
  function Purchases(o: Lot, usd: nat): seq<Level>
    requires o.currentPrice > 0
    decreases usd
  {
    if usd == 0 then []
    else
      var n := Min(Affordable(o.currentPrice, usd), o.amountLeft);
      var spent := Max(MulInt(o.currentPrice, n), 1);
      [Level(n, o.currentPrice)] + Purchases(o.Update(n), SatSub(usd, spent))
  }

  /** The lot on offer after those purchases. */
  function Walked(o: Lot, usd: nat): Lot
    requires o.currentPrice > 0
    decreases usd
  {
    if usd == 0 then o
    else
      var n := Min(Affordable(o.currentPrice, usd), o.amountLeft);
      Walked(o.Update(n), SatSub(usd, Max(MulInt(o.currentPrice, n), 1)))
  }

  /** What the purchases cost at their lots' prices, each rounded down. */
  function Cost(levels: seq<Level>): nat {
    if |levels| == 0 then 0 else levels[0].Usd() + Cost(levels[1..])
  }

  /** How many purchases are charged one unit although they cost nothing. */
  function Free(levels: seq<Level>): nat {
    if |levels| == 0 then 0 else (if levels[0].Usd() == 0 then 1 else 0) + Free(levels[1..])
  }

  lemma {:induction false} ReciprocalRounds(p: Price)
    requires p > 0
    ensures var r := Reciprocal(p).value; r * p <= ONE * ONE < (r + 1) * p
  {
    FloorOf(ONE * ONE, p);
    AtMost(ONE * ONE, p);
  }

  lemma {:induction false} AtMost(n: nat, d: nat)
    requires d > 0
    ensures n / d <= n
  {
    FloorOf(n, d);
    AtMostArithmetic(n / d, d, n);
  }

  lemma {:induction false} AtMostArithmetic(q: nat, d: nat, n: nat)
    requires d > 0 && q * d <= n
    ensures q <= n
  {
    MulLe(1, d, q);
    Commute(d, q);
  }

  lemma {:induction false} AffordableArithmetic(p: nat, r: nat, usd: nat, n: nat, one: nat)
    requires one > 0 && r * p <= one * one && n * one <= r * usd
    ensures p * n <= usd * one
  {
    MulLe(n * one, r * usd, p);
    Regroup(n, one, p);
    Regroup(r, usd, p);
    MulLe(r * p, one * one, usd);
    Regroup(usd, one, one);
    Commute(one * one, usd);
    Commute(n, p);
    Cancel(p * n, usd * one, one);
  }

  /** What is affordable never costs more than the ticket. */
  lemma {:induction false} AffordableWithin(p: Price, usd: nat, n: nat)
    requires p > 0 && n <= Affordable(p, usd)
    ensures MulInt(p, n) <= usd
  {
    var r := Reciprocal(p).value;
    ReciprocalRounds(p);
    FloorOf(r * usd, ONE);
    MulLe(n, r * usd / ONE, ONE);
    AffordableArithmetic(p, r, usd, n, ONE);
    FloorOf(p * n, ONE);
    Cancel(p * n / ONE, usd, ONE);
  }

  lemma {:induction false} GreedyArithmetic(p: nat, r: nat, usd: nat, n: nat, one: nat)
    requires one * one < (r + 1) * p && r * usd < (n + 1) * one
    ensures one * one * usd <= (n + 1) * p * one + p * usd
  {
    MulLe(one * one, (r + 1) * p, usd);
    Regroup(r + 1, p, usd);
    Distribute(r * usd, usd, p);
    Distribute(r, 1, usd);
    MulLe(r * usd, (n + 1) * one, p);
    Regroup(n + 1, one, p);
    Commute(usd, p);
  }

  /** And no more could be had: one token more would exceed the ticket, but for the rounding of
      the reciprocal. */
  lemma {:induction false} AffordableIsMost(p: Price, usd: nat)
    requires p > 0 && Affordable(p, usd) < MAX_BALANCE
    ensures ONE * ONE * usd <= (Affordable(p, usd) + 1) * p * ONE + p * usd
  {
    var r := Reciprocal(p).value;
    ReciprocalRounds(p);
    FloorOf(r * usd, ONE);
    GreedyArithmetic(p, r, usd, r * usd / ONE, ONE);
  }

  /** The whole ticket is spent, one unit for each purchase that costs nothing and the rounded-down
      cost of all others; so the US dollar subtraction never clamps and the quoted tokens never
      cost more than the ticket. */
  lemma {:induction false} TicketIsSpent(o: Lot, usd: nat)
    requires o.currentPrice > 0
    ensures Cost(Purchases(o, usd)) + Free(Purchases(o, usd)) == usd
    decreases usd
  {
    if usd == 0 {
    } else {
      var n := Min(Affordable(o.currentPrice, usd), o.amountLeft);
      var spent := Max(MulInt(o.currentPrice, n), 1);
      AffordableWithin(o.currentPrice, usd, n);
      TicketIsSpent(o.Update(n), usd - spent);
      assert Purchases(o, usd)[1..] == Purchases(o.Update(n), usd - spent);
    }
  }

  function AmountsOf(levels: seq<Level>): seq<nat> {
    if |levels| == 0 then [] else AmountsOf(levels[..|levels| - 1]) + [levels[|levels| - 1].amount]
  }

  /** Selling one amount first and a list of amounts after it. */
  lemma {:induction false} SellFirst(o: Lot, n: nat, sales: seq<nat>)
    requires n <= o.amountLeft
    ensures Sell(o, [n] + sales) == Sell(o.Update(n), sales)
    ensures InBounds(o, [n] + sales) <==> InBounds(o.Update(n), sales)
  {
    if |sales| == 0 {
      assert [n] + sales == [n] && [n][..0] == [];
    } else {
      var init, last := sales[..|sales| - 1], sales[|sales| - 1];
      SellFirst(o, n, init);
      assert ([n] + sales)[..|sales|] == [n] + init;
    }
  }

  lemma {:induction false} AmountsFirst(l: Level, rest: seq<Level>)
    ensures AmountsOf([l] + rest) == [l.amount] + AmountsOf(rest)
  {
    if |rest| == 0 {
      assert [l] + rest == [l] && [l][..0] == [];
    } else {
      AmountsFirst(l, rest[..|rest| - 1]);
      assert ([l] + rest)[..|rest|] == [l] + rest[..|rest| - 1];
    }
  }

  lemma {:induction false} SumFirst(x: nat, xs: seq<nat>)
    ensures Sum([x] + xs) == x + Sum(xs)
  {
    if |xs| == 0 {
      assert [x] + xs == [x] && [x][..0] == [];
    } else {
      SumFirst(x, xs[..|xs| - 1]);
      assert ([x] + xs)[..|xs|] == [x] + xs[..|xs| - 1];
    }
  }

  lemma {:induction false} AmountsAddUp(levels: seq<Level>)
    ensures Sum(AmountsOf(levels)) == Amounts(levels)
  {
    if |levels| == 0 {
    } else {
      var rest := levels[1..];
      AmountsAddUp(rest);
      assert levels == [levels[0]] + rest;
      AmountsFirst(levels[0], rest);
      SumFirst(levels[0].amount, AmountsOf(rest));
    }
  }

  lemma {:induction false} WalkedIsSale(o: Lot, usd: nat)
    requires o.currentPrice > 0
    ensures var sales := AmountsOf(Purchases(o, usd));
            InBounds(o, sales) && Walked(o, usd) == Sell(o, sales)
    decreases usd
  {
    if usd == 0 {
    } else {
      var n := Min(Affordable(o.currentPrice, usd), o.amountLeft);
      var spent := Max(MulInt(o.currentPrice, n), 1);
      var rest := Purchases(o.Update(n), SatSub(usd, spent));
      WalkedIsSale(o.Update(n), SatSub(usd, spent));
      SellFirst(o, n, AmountsOf(rest));
      AmountsFirst(Level(n, o.currentPrice), rest);
    }
  }

  /** The walked lot is exactly the starting lot after the quoted sales, each within the lot it is
      made from. If lots are not empty, that is the starting lot after selling the quoted amount. */
  lemma {:induction false} WalkedSells(o: Lot, usd: nat)
    requires o.currentPrice > 0
    ensures var sales := AmountsOf(Purchases(o, usd));
            InBounds(o, sales) && Walked(o, usd) == Sell(o, sales)
    ensures o.Open() ==> Walked(o, usd) == After(o, Amounts(Purchases(o, usd)))
  {
    WalkedIsSale(o, usd);
    if o.Open() {
      OnlySumOfSalesMatters(o, AmountsOf(Purchases(o, usd)));
      AmountsAddUp(Purchases(o, usd));
    }
  }

  /** Lots that are not empty are needed for that: selling nothing leaves a lot alone if and only if
      it is not empty, or the next one is empty as well and no dearer. */
  lemma {:induction false} SellingNothingMovesIff(o: Lot)
    ensures o.Update(0) == o
       <==> o.amountLeft > 0 || (o.deltaAmount == 0 && SatAdd(o.currentPrice, o.deltaPrice) == o.currentPrice)
  {
  }

  /** Tokens and prices are balances, as their types have it. */
  ghost predicate Typed(o: Lot) {
    o.amountLeft <= MAX_BALANCE && o.deltaAmount <= MAX_BALANCE && o.currentPrice <= MAX_BALANCE
  }

  /** What a list of purchases takes from the ticket: its cost, and one unit where that is nothing. */
  function Charged(levels: seq<Level>): nat {
    Cost(levels) + Free(levels)
  }

  /** One token more at that price would cost more than the ticket, but for the rounding of the
      reciprocal. */
  ghost predicate AtMostOneShort(price: Price, ticket: nat, amount: nat) {
    ONE * ONE * ticket <= (amount + 1) * price * ONE + price * ticket
  }

  /** A purchase at a lot with a ticket left takes the whole lot, or so much that one token more would
      exceed the ticket but for the rounding of the reciprocal. It never takes more than either. */
  ghost predicate Greedy(lot: Lot, ticket: nat, l: Level) {
    && l.price == lot.currentPrice && l.amount <= lot.amountLeft && MulInt(l.price, l.amount) <= ticket
    && (l.amount == lot.amountLeft || AtMostOneShort(l.price, ticket, l.amount))
  }

  lemma {:induction false} FirstIsGreedy(o: Lot, usd: nat)
    requires o.currentPrice > 0 && Typed(o) && usd > 0
    ensures |Purchases(o, usd)| > 0 && Greedy(o, usd, Purchases(o, usd)[0])
  {
    var n := Min(Affordable(o.currentPrice, usd), o.amountLeft);
    AffordableWithin(o.currentPrice, usd, n);
    if n < o.amountLeft { AffordableIsMost(o.currentPrice, usd); }
  }

  lemma {:induction false} ChargedFirst(l: Level, rest: seq<Level>)
    ensures Charged([l] + rest) == Max(l.Usd(), 1) + Charged(rest)
  {
    assert ([l] + rest)[1..] == rest;
  }

  /** The walk is greedy: every purchase is, at the lot the ladder then stands at and with what the
      earlier purchases have left of the ticket. */
  lemma {:induction false} PurchasesAreGreedy(o: Lot, usd: nat, i: nat)
    requires o.currentPrice > 0 && Typed(o) && i < |Purchases(o, usd)|
    ensures var bought := Purchases(o, usd)[..i];
            && Charged(bought) < usd
            && Greedy(Sell(o, AmountsOf(bought)), usd - Charged(bought), Purchases(o, usd)[i])
    decreases usd
  {
    var all := Purchases(o, usd);
    FirstIsGreedy(o, usd);
    if i == 0 {
      assert all[..0] == [];
    } else {
      var n := Min(Affordable(o.currentPrice, usd), o.amountLeft);
      var spent := Max(MulInt(o.currentPrice, n), 1);
      AffordableWithin(o.currentPrice, usd, n);
      PurchasesAreGreedy(o.Update(n), usd - spent, i - 1);
      LaterBought(o, Level(n, o.currentPrice), Purchases(o.Update(n), usd - spent), i);
    }
  }

  /** The first purchases of a walk, seen from its start and from after the first one. */
  lemma {:induction false} LaterBought(o: Lot, l: Level, rest: seq<Level>, i: nat)
    requires 0 < i <= |rest| && l.amount <= o.amountLeft
    ensures var all := [l] + rest;
            && all[i] == rest[i - 1]
            && Charged(all[..i]) == Max(l.Usd(), 1) + Charged(rest[..i - 1])
            && Sell(o, AmountsOf(all[..i])) == Sell(o.Update(l.amount), AmountsOf(rest[..i - 1]))
  {
    assert ([l] + rest)[..i] == [l] + rest[..i - 1];
    ChargedFirst(l, rest[..i - 1]);
    AmountsFirst(l, rest[..i - 1]);
    SellFirst(o, l.amount, AmountsOf(rest[..i - 1]));
  }

  /** The walk stops only when the ticket is spent, so as long as the first lot is not sold out the
      quote is at most one token short, but for the rounding of the reciprocal. */
  lemma {:induction false} QuoteIsGreedy(o: Lot, usd: nat)
    requires o.currentPrice > 0 && Typed(o) && Amounts(Purchases(o, usd)) < o.amountLeft
    ensures AtMostOneShort(o.currentPrice, usd, Amounts(Purchases(o, usd)))
  {
    if usd == 0 {
      assert ONE * ONE * usd == 0;
      NonNegative(o.currentPrice, ONE);
    } else {
      FirstIsGreedy(o, usd);
      var first := Purchases(o, usd)[0].amount;
      MulLe(first + 1, Amounts(Purchases(o, usd)) + 1, o.currentPrice);
      MulLe((first + 1) * o.currentPrice, (Amounts(Purchases(o, usd)) + 1) * o.currentPrice, ONE);
    }
  }

  /** The quote in the auction phase. `None` stands for the panic on a price of zero. */
  method QuoteTicket(stored: Lot, usdTicket: nat) returns (ctAmount: Option<nat>, walked: Lot)
    ensures ctAmount.None? <==> usdTicket > 0 && stored.currentPrice == 0
    ensures usdTicket == 0 ==> ctAmount == Some(0) && walked == stored
    ensures stored.currentPrice > 0 ==>
      ctAmount == Some(Min(Amounts(Purchases(stored, usdTicket)), MAX_BALANCE)) && walked == Walked(stored, usdTicket)
    ensures stored.currentPrice > 0 && Typed(stored) && ctAmount.value < stored.amountLeft ==>
      AtMostOneShort(stored.currentPrice, usdTicket, ctAmount.value)
  {
    var usdToSpend, ct := usdTicket, 0;
    var bucket := new Bucket(stored);
    ghost var bought: nat := 0;
    while usdToSpend > 0
      invariant stored.currentPrice == 0 ==> bucket.View() == stored && usdToSpend == usdTicket && ct == 0
      invariant stored.currentPrice > 0 ==>
        && bucket.currentPrice > 0 && ct == Min(bought, MAX_BALANCE)
        && Walked(bucket.View(), usdToSpend) == Walked(stored, usdTicket)
        && bought + Amounts(Purchases(bucket.View(), usdToSpend)) == Amounts(Purchases(stored, usdTicket))
      decreases usdToSpend
    {
      var price := bucket.currentPrice;
      var reciprocal := Reciprocal(price);
      if reciprocal.None? { return None, stored; }
      var ctToBuy := Min(MulInt(reciprocal.value, usdToSpend), bucket.amountLeft);
      ct := SatAdd(ct, ctToBuy);
      var usdSpent := Max(MulInt(price, ctToBuy), 1);
      ghost var b, usd := bucket.View(), usdToSpend;
      usdToSpend := SatSub(usdToSpend, usdSpent);
      bucket.Update(ctToBuy);
      bought := bought + ctToBuy;
      assert Purchases(b, usd)[1..] == Purchases(bucket.View(), usdToSpend);
    }
    if stored.currentPrice > 0 && Typed(stored) && ct < stored.amountLeft { QuoteIsGreedy(stored, usdTicket); }
    ctAmount := Some(ct);
    walked := Lot(bucket.amountLeft, bucket.currentPrice, bucket.initialPrice, bucket.deltaPrice, bucket.deltaAmount);
  }

  /** `funding_asset_to_ct_amount`: at the weighted average price once there is one, otherwise up
      the ladder. */
  method FundingAssetToCtAmount(wap: Option<Price>, stored: Lot, assetPrice: Price, assetAmount: nat)
    returns (ctAmount: Option<nat>)
    ensures wap.Some? ==> (ctAmount.None? <==> wap.value == 0)
    ensures wap.Some? && ctAmount.Some? ==> MulInt(wap.value, ctAmount.value) <= MulInt(assetPrice, assetAmount)
    ensures wap.Some? && ctAmount.Some? ==> ctAmount.value == Affordable(wap.value, MulInt(assetPrice, assetAmount))
    ensures wap.None? && stored.currentPrice > 0 ==>
      ctAmount == Some(Min(Amounts(Purchases(stored, MulInt(assetPrice, assetAmount))), MAX_BALANCE))
    ensures wap.None? && stored.currentPrice > 0 && Typed(stored) && ctAmount.value < stored.amountLeft ==>
      AtMostOneShort(stored.currentPrice, MulInt(assetPrice, assetAmount), ctAmount.value)
    ensures wap.Some? && wap.value > 0 && ctAmount.value < MAX_BALANCE ==>
      AtMostOneShort(wap.value, MulInt(assetPrice, assetAmount), ctAmount.value)
  {
    var ticket := MulInt(assetPrice, assetAmount);
    match wap {
      case Some(price) =>
        var reciprocal := Reciprocal(price);
        if reciprocal.None? { return None; }
        ctAmount := Some(MulInt(reciprocal.value, ticket));
        AffordableWithin(price, ticket, ctAmount.value);
        if ctAmount.value < MAX_BALANCE { AffordableIsMost(price, ticket); }
      case None =>
        var quoted, _ := QuoteTicket(stored, ticket);
        ctAmount := quoted;
    }
  }
}
