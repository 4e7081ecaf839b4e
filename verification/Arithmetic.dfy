/** Products, quotients and their order, one small step at a time. */
module Arithmetic {

  lemma {:induction false} MulLe(x: int, y: int, z: int)
    requires x <= y && 0 <= z
    ensures x * z <= y * z
  {
    assert y * z == x * z + (y - x) * z;
  }

  lemma {:induction false} MulLt(x: int, y: int, z: int)
    requires x < y && 0 < z
    ensures x * z < y * z
  {
    assert y * z == x * z + (y - x) * z;
  }

  lemma {:induction false} NonNegative(x: nat, y: nat)
    ensures x * y >= 0
  {
  }

  lemma {:induction false} Cancel(x: int, y: int, z: int)
    requires z > 0 && x * z <= y * z
    ensures x <= y
  {
    assert (y + 1) * z == y * z + z;
    if y + 1 <= x { MulLe(y + 1, x, z); }
  }

  lemma {:induction false} CancelLt(x: int, y: int, z: int)
    requires 0 <= z && x * z < y * z
    ensures x < y
  {
    if y <= x { MulLe(y, x, z); }
  }

  lemma {:induction false} Commute(x: int, y: int)
    ensures x * y == y * x
  {
  }

  lemma {:induction false} Distribute(x: int, y: int, z: int)
    ensures (x + y) * z == x * z + y * z
  {
  }

  lemma {:induction false} Regroup(x: int, y: int, z: int)
    ensures x * y * z == x * z * y == x * (y * z)
  {
  }

  lemma {:induction false} FloorOf(n: nat, d: nat)
    requires d > 0
    ensures n / d >= 0 && n / d * d <= n < (n / d + 1) * d
  {
    assert n == n / d * d + n % d;
    assert (n / d + 1) * d == n / d * d + d;
  }
}
