/** Saturating arithmetic on balances and block numbers, and finite sums over storage maps. */
module Totals {

  /** The largest `Balance`: the runtime instantiates it with an unsigned 128-bit integer. */
  const MAX_BALANCE: nat := 0xFFFF_FFFF_FFFF_FFFF_FFFF_FFFF_FFFF_FFFF

  /** The largest block number: the runtime instantiates it with an unsigned 32-bit integer. */
  const MAX_BLOCK: nat := 0xFFFF_FFFF

  datatype Option<+T> = None | Some(value: T)

  function Max(x: nat, y: nat): nat { if x < y then y else x }

  function Min(x: nat, y: nat): nat { if x < y then x else y }

  function SatAdd(x: nat, y: nat): nat { Min(x + y, MAX_BALANCE) }

  function SatSub(x: nat, y: nat): nat { if x < y then 0 else x - y }

  function SatMul(x: nat, y: nat): nat { Min(x * y, MAX_BALANCE) }

  function BlockAdd(x: nat, y: nat): nat { Min(x + y, MAX_BLOCK) }

  function BlockMul(x: nat, y: nat): nat { Min(x * y, MAX_BLOCK) }

  /** A storage map read with a zero default. */
  function At<K>(w: map<K, nat>, k: K): nat { if k in w then w[k] else 0 }

  /** The sum of all values of a map. */
  ghost function Total<K>(w: map<K, nat>): nat
    decreases |w|
  {
    if w == map[] then 0 else
      var k :| k in w;
      w[k] + Total(w - {k})
  }

  /** `Total` does not depend on the key it happens to pick first. */
  lemma {:induction false} TotalSplit<K>(w: map<K, nat>, k: K)
    requires k in w
    ensures Total(w) == w[k] + Total(w - {k})
    decreases |w|
  {
    var p :| p in w && Total(w) == w[p] + Total(w - {p});
    if p != k {
      TotalSplit(w - {p}, k);
      TotalSplit(w - {k}, p);
      assert w - {p} - {k} == w - {k} - {p};
    }
  }

  /** Overwriting one entry moves the sum by exactly the change of that entry. */
  lemma {:induction false} TotalUpdate<K>(w: map<K, nat>, k: K, x: nat)
    ensures Total(w[k := x]) + At(w, k) == Total(w) + x
  {
    TotalSplit(w[k := x], k);
    assert w[k := x] - {k} == w - {k};
    if k in w {
      TotalSplit(w, k);
    } else {
      assert w - {k} == w;
    }
  }

  lemma {:induction false} TotalCovers<K>(w: map<K, nat>, k: K)
    ensures At(w, k) <= Total(w)
  {
    if k in w { TotalSplit(w, k); }
  }

  /** Pointwise domination, with missing keys read as zero, dominates the sum. */
  lemma {:induction false} TotalMonotone<K>(w: map<K, nat>, u: map<K, nat>)
    requires forall k :: k in w ==> w[k] <= At(u, k)
    ensures Total(w) <= Total(u)
    decreases |w|
  {
    if w == map[] {
    } else {
      var k :| k in w;
      TotalSplit(w, k);
      if k in u {
        TotalSplit(u, k);
        TotalMonotone(w - {k}, u - {k});
      } else {
        TotalMonotone(w - {k}, u);
      }
    }
  }

  /** Entries that are zero may be present in one map and absent from the other. */
  lemma {:induction false} TotalSame<K>(w: map<K, nat>, u: map<K, nat>)
    requires forall k :: k in w ==> w[k] == At(u, k)
    requires forall k :: k in u ==> u[k] == At(w, k)
    ensures Total(w) == Total(u)
  {
    TotalMonotone(w, u);
    TotalMonotone(u, w);
  }

  lemma {:induction false} TotalZero<K>(w: map<K, nat>)
    requires forall k :: k in w ==> w[k] == 0
    ensures Total(w) == 0
  {
    TotalMonotone(w, map[]);
  }

  /** Sums are additive over pointwise addition. */
  lemma {:induction false} TotalPlus<K>(w: map<K, nat>, a: map<K, nat>, b: map<K, nat>)
    requires w.Keys == a.Keys == b.Keys
    requires forall k :: k in w ==> w[k] == a[k] + b[k]
    ensures Total(w) == Total(a) + Total(b)
    decreases |w|
  {
    if w == map[] {
      assert a == map[] && b == map[];
    } else {
      var k :| k in w;
      TotalSplit(w, k);
      TotalSplit(a, k);
      TotalSplit(b, k);
      TotalPlus(w - {k}, a - {k}, b - {k});
    }
  }

  /** A sixfold pointwise bound (the highest conviction multiplier) bounds the sums sixfold. */
  lemma {:induction false} TotalSixfold<K>(w: map<K, nat>, u: map<K, nat>)
    requires forall k :: k in w ==> w[k] <= 6 * At(u, k)
    ensures Total(w) <= 6 * Total(u)
    decreases |w|
  {
    if w == map[] {
    } else {
      var k :| k in w;
      TotalSplit(w, k);
      if k in u {
        TotalSplit(u, k);
        TotalSixfold(w - {k}, u - {k});
      } else {
        TotalSixfold(w - {k}, u);
      }
    }
  }

  /** The largest value of a map, zero when it is empty. */
  ghost function Largest<K>(w: map<K, nat>): (m: nat)
    ensures forall k :: k in w ==> w[k] <= m
    ensures m == 0 || exists k :: k in w && w[k] == m
    decreases |w|
  {
    if w == map[] then 0 else
      var k :| k in w;
      var rest := Largest(w - {k});
      assert forall j :: j in w && j != k ==> j in w - {k} && (w - {k})[j] == w[j];
      Max(w[k], rest)
  }
}
