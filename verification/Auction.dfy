/** The auction's price ladder: buckets of tokens at rising prices, and the weighted average price
    computed by walking back down. */
module Auction {
  import opened Totals
  import opened Arithmetic

  // ------------------------------------------------- fixed-point arithmetic

  /** `FixedU128` counts units of ten to the minus eighteen; products and quotients round down. */
  const ONE: nat := 1_000_000_000_000_000_000

  type Price = nat

  function MulInt(p: Price, n: nat): nat { Min(p * n / ONE, MAX_BALANCE) }

  function MulPrice(p: Price, q: Price): Price { Min(p * q / ONE, MAX_BALANCE) }

  /** Dividing by zero panics in the original. */
  function FromRational(n: nat, d: nat): Price
    requires d > 0
  {
    Min(n * ONE / d, MAX_BALANCE)
  }

  function Reciprocal(p: Price): Option<Price> {
    if p == 0 then None else Some(Min(ONE * ONE / p, MAX_BALANCE))
  }

  // ----------------------------------------------------------------- buckets

  datatype Lot = Lot(amountLeft: nat, currentPrice: Price, initialPrice: Price, deltaPrice: Price, deltaAmount: nat) {

    function Next(): Lot {
      this.(amountLeft := deltaAmount, currentPrice := SatAdd(currentPrice, deltaPrice))
    }

    function Update(removed: nat): Lot {
      var left := SatSub(amountLeft, removed);
      if left == 0 then this.(amountLeft := 0).Next() else this.(amountLeft := left)
    }

    /** A lot never stands empty: a sold-out one gives way to the next, which is not empty. */
    predicate Open() {
      amountLeft > 0 && deltaAmount > 0 && currentPrice <= MAX_BALANCE
    }
  }

  function NewLot(amount: nat, price: Price, deltaPrice: Price, deltaAmount: nat): Lot {
    Lot(amount, price, price, deltaPrice, deltaAmount)
  }

  /** The lot on offer once `sold` tokens have gone, in closed form. */
  function After(o: Lot, sold: nat): Lot
    requires o.Open()
  {
    if sold < o.amountLeft then o.(amountLeft := o.amountLeft - sold)
    else
      var beyond := sold - o.amountLeft;
      o.(amountLeft := o.deltaAmount - beyond % o.deltaAmount,
         currentPrice := Min(o.currentPrice + (1 + beyond / o.deltaAmount) * o.deltaPrice, MAX_BALANCE))
  }

  lemma {:induction false} DivideSum(x: nat, r: nat, d: nat)
    requires d > 0 && x % d + r <= d
    ensures x % d + r < d ==> (x + r) / d == x / d && (x + r) % d == x % d + r
    ensures x % d + r == d ==> (x + r) / d == x / d + 1 && (x + r) % d == 0
  {
    var q := x / d;
    assert x == q * d + x % d;
    if x % d + r < d {
      QuotientIs(x + r, d, q, x % d + r);
    } else {
      assert x + r == (q + 1) * d;
      QuotientIs(x + r, d, q + 1, 0);
    }
  }

  lemma {:induction false} QuotientIs(x: nat, d: nat, q: nat, r: nat)
    requires d > 0 && x == q * d + r && r < d
    ensures x / d == q && x % d == r
  {
    var e := x / d - q;
    assert x == (x / d) * d + x % d;
    assert (x / d) * d == q * d + e * d;
    assert e * d == r - x % d;
    if e >= 1 { assert e * d == d + (e - 1) * d; NonNegative(e - 1, d); }
    if e <= -1 { assert -e * d == d + (-e - 1) * d; NonNegative(-e - 1, d); }
  }

  /** Tokens are conserved: selling what a lot can cover moves the ladder by exactly that amount. */
  lemma {:induction false} SellMoves(o: Lot, sold: nat, removed: nat)
    requires o.Open() && removed <= After(o, sold).amountLeft
    ensures After(o, sold).Update(removed) == After(o, sold + removed)
  {
    var d := o.deltaAmount;
    if o.amountLeft <= sold {
      var beyond := sold - o.amountLeft;
      DivideSum(beyond, removed, d);
      var k := beyond / d;
      assert (1 + (k + 1)) * o.deltaPrice == (1 + k) * o.deltaPrice + o.deltaPrice;
    } else if sold + removed == o.amountLeft {
      FirstLotSoldOut(o, sold, removed);
    }
  }

  lemma {:induction false} FirstLotSoldOut(o: Lot, sold: nat, removed: nat)
    requires o.Open() && sold < o.amountLeft && sold + removed == o.amountLeft
    ensures After(o, sold).Update(removed) == After(o, sold + removed)
  {
    var d := o.deltaAmount;
    assert 0 / d == 0 && 0 % d == 0;
    assert (1 + 0 / d) * o.deltaPrice == o.deltaPrice;
  }

  function Sum(xs: seq<nat>): nat {
    if |xs| == 0 then 0 else Sum(xs[..|xs| - 1]) + xs[|xs| - 1]
  }

  function Sell(o: Lot, sales: seq<nat>): Lot {
    if |sales| == 0 then o else Sell(o, sales[..|sales| - 1]).Update(sales[|sales| - 1])
  }

  /** No sale takes more than the lot on offer has left. */
  predicate InBounds(o: Lot, sales: seq<nat>) {
    |sales| > 0 ==>
      InBounds(o, sales[..|sales| - 1]) && sales[|sales| - 1] <= Sell(o, sales[..|sales| - 1]).amountLeft
  }

  /** However sales are split, only their sum decides price and remaining amount. */
  lemma {:induction false} OnlySumOfSalesMatters(o: Lot, sales: seq<nat>)
    requires o.Open() && InBounds(o, sales)
    ensures Sell(o, sales) == After(o, Sum(sales))
  {
    if |sales| == 0 {
    } else {
      OnlySumOfSalesMatters(o, sales[..|sales| - 1]);
      SellMoves(o, Sum(sales[..|sales| - 1]), sales[|sales| - 1]);
    }
  }

  /** A lot reached from opening: `k` price steps up, no price clamped. */
  ghost predicate Rung(b: Lot, k: nat) {
    && b.currentPrice == b.initialPrice + k * b.deltaPrice && b.currentPrice <= MAX_BALANCE
    && (k > 0 ==> b.amountLeft <= b.deltaAmount)
  }

  /** Tokens sold above the first bucket's price. */
  function Above(b: Lot, k: nat): nat {
    if k == 0 then 0 else SatSub(b.deltaAmount, b.amountLeft) + (k - 1) * b.deltaAmount
  }

  /** Every lot on the way is a rung of the ladder, and what was sold beyond the first bucket is
      what lies above its price. */
  lemma {:induction false} AfterIsRung(amount: nat, price: Price, deltaPrice: Price, deltaAmount: nat, sold: nat)
    returns (k: nat)
    requires amount > 0 && deltaAmount > 0 && price <= MAX_BALANCE
    requires price + (1 + SatSub(sold, amount) / deltaAmount) * deltaPrice <= MAX_BALANCE
    ensures var b := After(NewLot(amount, price, deltaPrice, deltaAmount), sold);
            && Rung(b, k) && Above(b, k) == SatSub(sold, amount)
            && (k == 0 <==> sold < amount)
  {
    if sold < amount {
      k := 0;
      assert 0 * deltaPrice == 0;
    } else {
      var beyond := sold - amount;
      k := 1 + beyond / deltaAmount;
      assert beyond == (beyond / deltaAmount) * deltaAmount + beyond % deltaAmount;
    }
  }

  // --------------------------------------------------- walking the ladder down

  /** Tokens taken at one price. */
  datatype Level = Level(amount: nat, price: Price) {
    function Usd(): nat { MulInt(price, amount) }
  }

  /** Take the most expensive tokens first, then whatever is left at the initial price. */
  function Walk(b: Lot, price: Price, amount: nat, total: nat): seq<Level>
    requires b.deltaPrice > 0
    decreases price
  {
    if price > b.initialPrice && total > 0 then
      [Level(amount, price)] + Walk(b, SatSub(price, b.deltaPrice), b.deltaAmount, SatSub(total, amount))
    else if total > 0 then [Level(total, b.initialPrice)]
    else []
  }

  function Levels(b: Lot, total: nat): seq<Level>
    requires b.deltaPrice > 0
  {
    Walk(b, b.currentPrice, SatSub(b.deltaAmount, b.amountLeft), total)
  }

  function Amounts(levels: seq<Level>): nat {
    if |levels| == 0 then 0 else levels[0].amount + Amounts(levels[1..])
  }

  /** Tokens from `j` steps up down to one step up, `amount` of them at the top. */
  function AboveFrom(j: nat, amount: nat, each: nat): nat {
    if j == 0 then 0 else amount + (j - 1) * each
  }

  /** At most `count` levels priced within bounds, taking exactly the total if `above` fits in it,
      and otherwise overshooting by less than `each`. */
  ghost predicate Takes(levels: seq<Level>, total: nat, above: nat, each: nat, count: nat, low: nat, top: nat) {
    && |levels| <= count
    && (above <= total ==> Amounts(levels) == total)
    && (above > total ==> total <= Amounts(levels) < total + each)
    && PricedWithin(levels, low, top)
  }

  lemma {:induction false} TakesMore(rest: seq<Level>, total: nat, above: nat, each: nat, count: nat, low: nat,
                                     lower: nat, amount: nat, top: nat)
    requires Takes(rest, SatSub(total, amount), above, each, count, low, lower)
    requires total > 0 && amount <= each && low <= lower <= top && (total < amount ==> rest == [])
    ensures Takes([Level(amount, top)] + rest, total, amount + above, each, count + 1, low, top)
  {
    var levels := [Level(amount, top)] + rest;
    assert levels[1..] == rest;
  }

  lemma {:induction false} WalkAdds(b: Lot, j: nat, amount: nat, total: nat)
    requires b.deltaPrice > 0 && amount <= b.deltaAmount
    ensures Takes(Walk(b, b.initialPrice + j * b.deltaPrice, amount, total), total,
                  AboveFrom(j, amount, b.deltaAmount), b.deltaAmount, j + 1,
                  b.initialPrice, b.initialPrice + j * b.deltaPrice)
  {
    var price := b.initialPrice + j * b.deltaPrice;
    if j == 0 {
      assert j * b.deltaPrice == 0;
      WalkBottom(b, amount, total);
    } else if total > 0 {
      StepDown(j, b.deltaPrice);
      var lower := b.initialPrice + (j - 1) * b.deltaPrice;
      assert price > b.initialPrice && SatSub(price, b.deltaPrice) == lower;
      WalkAdds(b, j - 1, b.deltaAmount, SatSub(total, amount));
      AboveSplits(j, amount, b.deltaAmount);
      NothingTaken(b, lower, b.deltaAmount);
      TakesMore(Walk(b, lower, b.deltaAmount, SatSub(total, amount)), total,
                AboveFrom(j - 1, b.deltaAmount, b.deltaAmount),
                b.deltaAmount, j, b.initialPrice, lower, amount, price);
    } else {
      NothingTaken(b, price, amount);
      SomethingAbove(j, amount, b.deltaAmount);
    }
  }

  lemma {:induction false} WalkBottom(b: Lot, amount: nat, total: nat)
    requires b.deltaPrice > 0
    ensures Takes(Walk(b, b.initialPrice, amount, total), total, 0, b.deltaAmount, 1, b.initialPrice, b.initialPrice)
  {
  }

  lemma {:induction false} SomethingAbove(j: nat, amount: nat, each: nat)
    requires amount <= each
    ensures AboveFrom(j, amount, each) > 0 ==> each > 0
  {
    if each == 0 && j > 0 { assert (j - 1) * each == 0; }
  }

  lemma {:induction false} NothingTaken(b: Lot, price: Price, amount: nat)
    requires b.deltaPrice > 0
    ensures Walk(b, price, amount, 0) == []
  {
  }

  lemma {:induction false} StepDown(j: nat, d: nat)
    requires j > 0 && d > 0
    ensures j * d == (j - 1) * d + d && j * d > 0 && (j - 1) * d >= 0
  {
    NonNegative(j - 1, d);
  }

  lemma {:induction false} AboveSplits(j: nat, amount: nat, each: nat)
    requires j > 0
    ensures AboveFrom(j, amount, each) == amount + AboveFrom(j - 1, each, each)
    ensures amount <= AboveFrom(j, amount, each)
  {
    NonNegative(j - 1, each);
    if j > 1 { assert (j - 1) * each == each + (j - 2) * each; }
  }

  /** The walk takes exactly the total if what was sold above the first price fits in it, and
      otherwise overshoots by less than one bucket. It visits at most `k + 1` prices, all between
      the initial and the current one. */
  lemma {:induction false} WalkTakesTotal(b: Lot, k: nat, total: nat)
    requires Rung(b, k) && k >= 1 && b.deltaPrice > 0
    ensures var levels := Levels(b, total);
            && (Above(b, k) <= total ==> Amounts(levels) == total)
            && (Above(b, k) > total ==> total <= Amounts(levels) < total + b.deltaAmount)
            && |levels| <= k + 1
            && (forall i :: 0 <= i < |levels| ==> b.initialPrice <= levels[i].price <= b.currentPrice)
  {
    WalkAdds(b, k, SatSub(b.deltaAmount, b.amountLeft), total);
  }

  lemma {:induction false} WalkLevel(b: Lot, j: nat, amount: nat, total: nat, i: nat)
    requires b.deltaPrice > 0
    requires i < |Walk(b, b.initialPrice + j * b.deltaPrice, amount, total)|
    ensures var level := Walk(b, b.initialPrice + j * b.deltaPrice, amount, total)[i];
            && i <= j && level.price == b.initialPrice + (j - i) * b.deltaPrice
            && level.amount == (if i == j then total - AboveFrom(j, amount, b.deltaAmount)
                                else if i == 0 then amount else b.deltaAmount)
  {
    if j == 0 {
      assert j * b.deltaPrice == 0;
    } else {
      StepDown(j, b.deltaPrice);
      var lower := b.initialPrice + (j - 1) * b.deltaPrice;
      NothingTaken(b, lower, b.deltaAmount);
      AboveSplits(j, amount, b.deltaAmount);
      if i > 0 { WalkLevel(b, j - 1, b.deltaAmount, SatSub(total, amount), i - 1); }
    }
  }

  /** What the walk takes at which price: what was sold of the current bucket at the current price,
      whole buckets at each lower price, and the rest at the initial price. */
  lemma {:induction false} LevelIs(b: Lot, k: nat, total: nat, i: nat)
    requires Rung(b, k) && k >= 1 && b.deltaPrice > 0 && i < |Levels(b, total)|
    ensures var level := Levels(b, total)[i];
            && i <= k && level.price == b.initialPrice + (k - i) * b.deltaPrice
            && level.amount == (if i == k then total - Above(b, k)
                                else if i == 0 then b.deltaAmount - b.amountLeft else b.deltaAmount)
  {
    WalkLevel(b, k, SatSub(b.deltaAmount, b.amountLeft), total, i);
  }

  // ------------------------------------------------ the weighted average price

  /** The fold over US dollar amounts, saturating. */
  function UsdSum(levels: seq<Level>): nat {
    if |levels| == 0 then 0 else SatAdd(UsdSum(levels[..|levels| - 1]), levels[|levels| - 1].Usd())
  }

  function Weigh(l: Level, sum: nat): Price
    requires sum > 0
  {
    MulPrice(FromRational(l.Usd(), sum), l.price)
  }

  function Average(levels: seq<Level>, sum: nat): Price
    requires sum > 0
  {
    if |levels| == 0 then 0 else SatAdd(Average(levels[..|levels| - 1], sum), Weigh(levels[|levels| - 1], sum))
  }

  /** `None` where the original divides by zero. */
  function Wap(b: Lot, total: nat): Option<Price>
    requires b.currentPrice != b.initialPrice ==> b.deltaPrice > 0
  {
    if b.currentPrice == b.initialPrice then Some(b.currentPrice)
    else
      var levels := Levels(b, total);
      if |levels| == 0 then Some(0)
      else if UsdSum(levels) == 0 then None
      else Some(Average(levels, UsdSum(levels)))
  }

  /** US dollars in exact arithmetic. */
  ghost function Usd(levels: seq<Level>): nat {
    if |levels| == 0 then 0 else Usd(levels[..|levels| - 1]) + levels[|levels| - 1].Usd()
  }

  /** Prices weighted by US dollars, in exact arithmetic. */
  ghost function Weighted(levels: seq<Level>): nat {
    if |levels| == 0 then 0
    else
      var init, last := levels[..|levels| - 1], levels[|levels| - 1];
      Weighted(init) + last.Usd() * last.price
  }

  lemma {:induction false} UsdSumIs(levels: seq<Level>)
    ensures UsdSum(levels) == Min(Usd(levels), MAX_BALANCE)
  {
    if |levels| == 0 {
    } else {
      UsdSumIs(levels[..|levels| - 1]);
    }
  }

  /** The two roundings of one level, with `f` the share and `g` the weighted price. */
  lemma {:induction false} RoundingArithmetic(x: nat, sum: nat, p: nat, one: nat, f: nat, g: nat)
    requires sum > 0 && one > 0
    requires f * sum <= x * one < (f + 1) * sum
    requires g * one <= f * p < (g + 1) * one
    ensures g * sum <= x * p
    ensures x * p * one <= (g + 1) * sum * one + p * sum
  {
    var fp := f * p;
    MulLe(g * one, fp, sum);
    MulLe(f * sum, x * one, p);
    Regroup(g, one, sum);
    Regroup(f, p, sum);
    Regroup(x, one, p);
    assert g * sum * one <= x * p * one;
    Cancel(g * sum, x * p, one);
    MulLe(x * one, (f + 1) * sum, p);
    Regroup(f + 1, sum, p);
    assert (f + 1) * p * sum == fp * sum + p * sum by { assert (f + 1) * p == fp + p; Distribute(fp, p, sum); }
    MulLe(fp, (g + 1) * one, sum);
    Regroup(g + 1, one, sum);
  }

  lemma {:induction false} WeighExact(l: Level, sum: nat, top: nat)
    requires l.Usd() <= sum && sum > 0 && l.price <= top <= MAX_BALANCE
    ensures Weigh(l, sum) * sum <= l.Usd() * l.price
    ensures l.Usd() * l.price * ONE <= (Weigh(l, sum) + 1) * sum * ONE + top * sum
  {
    ShareRounds(l.Usd(), sum, l.price, top);
  }

  lemma {:induction false} ShareRounds(x: nat, sum: nat, p: nat, top: nat)
    requires x <= sum && sum > 0 && p <= top <= MAX_BALANCE
    ensures MulPrice(FromRational(x, sum), p) * sum <= x * p
    ensures x * p * ONE <= (MulPrice(FromRational(x, sum), p) + 1) * sum * ONE + top * sum
  {
    ShareIs(x, sum);
    var f := FromRational(x, sum);
    ProductIs(f, p);
    RoundingArithmetic(x, sum, p, ONE, f, MulPrice(f, p));
    MulLe(p, top, sum);
  }

  lemma {:induction false} ShareIs(x: nat, sum: nat)
    requires x <= sum && sum > 0
    ensures var f := FromRational(x, sum); f <= ONE && f * sum <= x * ONE < (f + 1) * sum
  {
    FloorOf(x * ONE, sum);
    ShareAtMostOne(x, sum, x * ONE / sum);
  }

  lemma {:induction false} ProductIs(f: nat, p: nat)
    requires f <= ONE && p <= MAX_BALANCE
    ensures MulPrice(f, p) * ONE <= f * p < (MulPrice(f, p) + 1) * ONE
  {
    FloorOf(f * p, ONE);
    MulLe(f, ONE, p);
    Commute(ONE, p);
    Cancel(f * p / ONE, p, ONE);
  }

  lemma {:induction false} ShareAtMostOne(x: nat, sum: nat, f: nat)
    requires sum > 0 && x <= sum && f * sum <= x * ONE
    ensures f <= ONE
  {
    MulLe(x, sum, ONE);
    Commute(sum, ONE);
    Cancel(f, ONE, sum);
  }

  ghost predicate PricedWithin(levels: seq<Level>, low: nat, top: nat) {
    forall i :: 0 <= i < |levels| ==> low <= levels[i].price <= top
  }

  /** The fold without saturation. */
  ghost function ExactAverage(levels: seq<Level>, sum: nat): nat
    requires sum > 0
  {
    if |levels| == 0 then 0 else ExactAverage(levels[..|levels| - 1], sum) + Weigh(levels[|levels| - 1], sum)
  }

  lemma {:induction false} AverageIs(levels: seq<Level>, sum: nat)
    requires sum > 0
    ensures Average(levels, sum) == Min(ExactAverage(levels, sum), MAX_BALANCE)
  {
    if |levels| == 0 {
    } else {
      AverageIs(levels[..|levels| - 1], sum);
    }
  }

  /** The running average of the levels seen so far against their exact weighted sum. */
  lemma {:induction false} AverageRounds(levels: seq<Level>, sum: nat, top: nat)
    requires sum > 0 && top <= MAX_BALANCE && PricedWithin(levels, 0, top)
    requires forall i :: 0 <= i < |levels| ==> levels[i].Usd() <= sum
    ensures ExactAverage(levels, sum) * sum <= Weighted(levels)
    ensures Weighted(levels) * ONE <= (ExactAverage(levels, sum) + |levels|) * sum * ONE + |levels| * top * sum
  {
    if |levels| == 0 {
    } else {
      var n := |levels| - 1;
      AverageRounds(levels[..n], sum, top);
      WeighExact(levels[n], sum, top);
      AddRounding(ExactAverage(levels[..n], sum), Weigh(levels[n], sum), Weighted(levels[..n]),
                  levels[n].Usd() * levels[n].price, n, sum, top, ONE);
    }
  }

  lemma {:induction false} AddRounding(a: nat, g: nat, w: nat, x: nat, n: nat, sum: nat, top: nat, one: nat)
    requires a * sum <= w && g * sum <= x
    requires w * one <= (a + n) * sum * one + n * top * sum
    requires x * one <= (g + 1) * sum * one + top * sum
    ensures (a + g) * sum <= w + x
    ensures (w + x) * one <= (a + g + (n + 1)) * sum * one + (n + 1) * top * sum
  {
    Distribute(a, g, sum);
    Distribute(w, x, one);
    Distribute(a + n, g + 1, sum);
    Distribute((a + n) * sum, (g + 1) * sum, one);
    assert (n + 1) * top == n * top + top;
    Distribute(n * top, top, sum);
  }

  lemma {:induction false} WeightedWithin(levels: seq<Level>, low: nat, top: nat)
    requires PricedWithin(levels, low, top)
    ensures low * Usd(levels) <= Weighted(levels) <= top * Usd(levels)
  {
    if |levels| == 0 {
    } else {
      var n := |levels| - 1;
      var x, p := levels[n].Usd(), levels[n].price;
      WeightedWithin(levels[..n], low, top);
      AddWithin(low, top, Usd(levels[..n]), Weighted(levels[..n]), x, p);
    }
  }

  lemma {:induction false} AddWithin(low: nat, top: nat, sum: nat, weighted: nat, x: nat, p: nat)
    requires low * sum <= weighted <= top * sum && low <= p <= top
    ensures low * (sum + x) <= weighted + x * p <= top * (sum + x)
  {
    MulLe(low, p, x);
    MulLe(p, top, x);
    Commute(x, p);
    Distribute(sum, x, low);
    Distribute(sum, x, top);
  }

  /** What the original divides by: the US dollars walked, or the largest balance if they exceed it. */
  ghost function Divisor(levels: seq<Level>): nat {
    Min(Usd(levels), MAX_BALANCE)
  }

  lemma {:induction false} EachWithinUsd(levels: seq<Level>, i: nat)
    requires i < |levels|
    ensures levels[i].Usd() <= Usd(levels)
  {
    var n := |levels| - 1;
    if i == n {
    } else {
      EachWithinUsd(levels[..n], i);
    }
  }

  /** The two folds together, saturated or not. */
  lemma {:induction false} WapRounds(b: Lot, k: nat, total: nat)
    returns (w: Price)
    requires Rung(b, k) && k >= 1 && b.deltaPrice > 0 && total > 0 && Usd(Levels(b, total)) > 0
    ensures Wap(b, total) == Some(w) && w <= MAX_BALANCE
    ensures var levels := Levels(b, total);
            var sum, n := Divisor(levels), |levels|;
            && w * sum <= Weighted(levels)
            && (w < MAX_BALANCE ==> Weighted(levels) * ONE <= (w + n) * sum * ONE + n * b.currentPrice * sum)
            && PricedWithin(levels, b.initialPrice, b.currentPrice) && n <= k + 1
  {
    var levels := Levels(b, total);
    var sum := Divisor(levels);
    WalkTakesTotal(b, k, total);
    UsdSumIs(levels);
    forall i | 0 <= i < |levels| ensures levels[i].Usd() <= sum {
      EachWithinUsd(levels, i);
    }
    AverageRounds(levels, sum, b.currentPrice);
    AverageIs(levels, sum);
    StepDown(k, b.deltaPrice);
    w := Average(levels, sum);
    MulLe(w, ExactAverage(levels, sum), sum);
  }

  lemma {:induction false} ExceedArithmetic(w: nat, top: nat, n: nat, sum: nat, weighted: nat, one: nat)
    requires weighted * one <= (w + n) * sum * one + n * top * sum
    requires weighted * one > (top + n) * sum * one + n * top * sum
    ensures w > top
  {
    if w <= top {
      MulLe(w + n, top + n, sum);
      MulLe((w + n) * sum, (top + n) * sum, one);
    }
  }

  /** The result is the average of the prices walked, each weighted by the US dollars taken at it,
      rounded down by at most one unit and one share of the top price per bucket, and at least the
      initial price less that rounding. Where the US dollars exceed the largest balance, they are
      still divided by that balance, so the result may exceed the current price. It does not as long
      as the weighted sum stays within the current price times the divisor, and it does once the
      weighted sum exceeds that by more than the rounding. */
  lemma {:induction false} WapIsWeightedAverage(b: Lot, k: nat, total: nat)
    returns (w: Price)
    requires Rung(b, k) && k >= 1 && b.deltaPrice > 0 && total > 0 && Usd(Levels(b, total)) > 0
    ensures Wap(b, total) == Some(w)
    ensures var levels := Levels(b, total);
            var sum, n, top := Divisor(levels), |levels|, b.currentPrice;
            && w * sum <= Weighted(levels)
            && (w < MAX_BALANCE ==> Weighted(levels) * ONE <= (w + n) * sum * ONE + n * top * sum)
            && b.initialPrice * ONE <= (w + n) * ONE + n * top
            && (Weighted(levels) <= top * sum ==> w <= top)
            && (top < MAX_BALANCE && Weighted(levels) * ONE > (top + n) * sum * ONE + n * top * sum ==> w > top)
            && (Usd(levels) <= MAX_BALANCE ==> w <= top)
            && n <= k + 1
  {
    w := WapRounds(b, k, total);
    var levels := Levels(b, total);
    var sum, n, top := Divisor(levels), |levels|, b.currentPrice;
    WeightedWithin(levels, b.initialPrice, top);
    if Weighted(levels) <= top * sum { Cancel(w, top, sum); }
    AtLeastInitial(b.initialPrice, Usd(levels), sum, Weighted(levels), w, n, top);
    if top < MAX_BALANCE && Weighted(levels) * ONE > (top + n) * sum * ONE + n * top * sum && w < MAX_BALANCE {
      ExceedArithmetic(w, top, n, sum, Weighted(levels), ONE);
    }
  }

  lemma {:induction false} AtLeastInitial(low: nat, usd: nat, sum: nat, weighted: nat, w: nat, n: nat, top: nat)
    requires 0 < sum <= usd && low * usd <= weighted && low <= MAX_BALANCE && w <= MAX_BALANCE
    requires w < MAX_BALANCE ==> weighted * ONE <= (w + n) * sum * ONE + n * top * sum
    ensures low * ONE <= (w + n) * ONE + n * top
  {
    NonNegative(n, top);
    if w < MAX_BALANCE {
      MulLe(sum, usd, low);
      Commute(sum, low);
      Commute(usd, low);
      LowerBound(low, sum, weighted, w, n, top, ONE);
    }
  }

  lemma {:induction false} LowerBound(low: nat, sum: nat, weighted: nat, w: nat, n: nat, top: nat, one: nat)
    requires sum > 0 && low * sum <= weighted
    requires weighted * one <= (w + n) * sum * one + n * top * sum
    ensures low * one <= (w + n) * one + n * top
  {
    MulLe(low * sum, weighted, one);
    Regroup(low, sum, one);
    Regroup(w + n, sum, one);
    Distribute((w + n) * one, n * top, sum);
    Cancel(low * one, (w + n) * one + n * top, sum);
  }

  lemma {:induction false} WorthlessUsd(levels: seq<Level>)
    ensures Usd(levels) == 0 <==> forall i :: 0 <= i < |levels| ==> levels[i].price * levels[i].amount < ONE
  {
    if |levels| == 0 {
    } else {
      var n := |levels| - 1;
      var init := levels[..n];
      WorthlessUsd(init);
      FloorOf(levels[n].price * levels[n].amount, ONE);
      assert forall i :: 0 <= i < n ==> levels[i] == init[i];
    }
  }

  /** The division by zero happens exactly when tokens are walked and at every price the tokens taken
      there are worth less than one unit. `LevelIs` says what is taken at which price. */
  lemma {:induction false} WapFailsIff(b: Lot, k: nat, total: nat)
    requires Rung(b, k) && k >= 1 && b.deltaPrice > 0
    ensures var levels := Levels(b, total);
            Wap(b, total).None? <==>
              total > 0 && forall i :: 0 <= i < |levels| ==> levels[i].price * levels[i].amount < ONE
    ensures total == 0 ==> Wap(b, total) == Some(0)
  {
    StepDown(k, b.deltaPrice);
    UsdSumIs(Levels(b, total));
    WorthlessUsd(Levels(b, total));
  }

  /** An input on which the result exceeds the current price: the fold saturates, and each of two large
      levels takes a full share. */
  lemma {:induction false} WapCanExceedPrice(b: Lot)
    requires b == Lot(1, 30 * ONE, 10 * ONE, 10 * ONE, ONE * ONE * 100)
    ensures Rung(b, 2) && Wap(b, ONE * ONE * 200) == Some(50 * ONE)
  {
    var big := ONE * ONE * 100;
    var top, middle, rest := Level(big - 1, 30 * ONE), Level(big, 20 * ONE), Level(1, 10 * ONE);
    assert Walk(b, 10 * ONE, big, 1) == [rest];
    assert Walk(b, 20 * ONE, big, big + 1) == [middle, rest];
    assert Levels(b, 2 * big) == [top, middle, rest];
    var levels := [top, middle, rest];
    assert levels[..2] == [top, middle] && [top, middle][..1] == [top] && [top][..0] == [];
    assert top.Usd() == MAX_BALANCE && middle.Usd() == MAX_BALANCE && rest.Usd() == 10;
    assert UsdSum([top]) == MAX_BALANCE;
    assert UsdSum([top, middle]) == MAX_BALANCE;
    assert UsdSum(levels) == MAX_BALANCE;
    assert Weigh(top, MAX_BALANCE) == 30 * ONE && Weigh(middle, MAX_BALANCE) == 20 * ONE;
    assert Weigh(rest, MAX_BALANCE) == 0;
    assert Average([top], MAX_BALANCE) == 30 * ONE;
    assert Average([top, middle], MAX_BALANCE) == 50 * ONE;
    assert Average(levels, MAX_BALANCE) == 50 * ONE;
  }

  /** An auction whose first lot is not sold out ends at its opening price, whatever is wanted. */
  lemma {:induction false} UnsoldAuctionKeepsPrice(open: Lot, sales: seq<nat>, wanted: nat)
    requires open.Open() && open.currentPrice == open.initialPrice
    requires InBounds(open, sales) && Sum(sales) < open.amountLeft
    ensures var b := Sell(open, sales);
            && b.currentPrice == b.initialPrice == open.initialPrice && b.amountLeft == open.amountLeft - Sum(sales)
            && Wap(b, wanted) == Some(open.initialPrice)
  {
    OnlySumOfSalesMatters(open, sales);
  }

  /** The price an auction ends with. Whatever in-bounds sales made up the auction, the walk takes
      exactly `wanted` tokens if the tokens sold above the first price fit in it, overshoots by
      less than a bucket otherwise, and the average does not exceed the highest price paid while the
      US dollars raised are a balance, nor as long as their weighted sum stays within that price. */
  lemma {:induction false} AuctionPriceSound(open: Lot, sales: seq<nat>, wanted: nat)
    returns (b: Lot, w: Price)
    requires open.Open() && open.currentPrice == open.initialPrice && open.deltaPrice > 0 && wanted > 0
    requires InBounds(open, sales) && open.amountLeft <= Sum(sales)
    requires open.initialPrice + (1 + (Sum(sales) - open.amountLeft) / open.deltaAmount) * open.deltaPrice
          <= MAX_BALANCE
    requires 0 < Usd(Levels(After(open, Sum(sales)), wanted))
    ensures b == After(open, Sum(sales)) == Sell(open, sales) && Wap(b, wanted) == Some(w)
    ensures var levels := Levels(b, wanted);
            && (Usd(levels) <= MAX_BALANCE ==> w <= b.currentPrice)
            && (Weighted(levels) <= b.currentPrice * Divisor(levels) ==> w <= b.currentPrice)
    ensures var beyond, taken := Sum(sales) - open.amountLeft, Amounts(Levels(b, wanted));
            if beyond <= wanted then taken == wanted else wanted <= taken < wanted + open.deltaAmount
  {
    OnlySumOfSalesMatters(open, sales);
    b := Sell(open, sales);
    var k := AfterIsRung(open.amountLeft, open.initialPrice, open.deltaPrice, open.deltaAmount, Sum(sales));
    assert NewLot(open.amountLeft, open.initialPrice, open.deltaPrice, open.deltaAmount) == open;
    WalkTakesTotal(b, k, wanted);
    w := WapIsWeightedAverage(b, k, wanted);
  }
}
