/** Places of numbers written to a base: what byte stands where in an encoding. */
module Digits {
  import Bits

  function Pow128(n: nat): (p: nat)
    ensures p > 0
  {
    if n == 0 then 1 else 128 * Pow128(n - 1)
  }

  function Pow256(n: nat): (p: nat)
    ensures p > 0
  {
    if n == 0 then 1 else 256 * Pow256(n - 1)
  }

  lemma ProductPositive(a: int, b: int)
    requires a > 0 && b > 0
    ensures a * b > 0
  {
  }

  lemma Between(x: int, a: int, b: int, q: int, r: int)
    requires a > 0 && b > 0 && 0 <= r < b && 0 <= x - a * (b * q + r) < a
    ensures q * (a * b) <= x < q * (a * b) + a * b
  {
    Expand(a, b, q, r);
    RoomFor(a, b, r);
  }

  lemma Expand(a: int, b: int, q: int, r: int)
    ensures a * (b * q + r) == q * (a * b) + a * r
  {
    assert a * (b * q) == (a * b) * q;
  }

  lemma RoomFor(a: int, b: int, r: int)
    requires a > 0 && 0 <= r < b
    ensures 0 <= a * r && a * r + a <= a * b
  {
    Bits.MulAtLeast(b - r, a);
    if r > 0 { Bits.MulAtLeast(r, a); }
    Minus(a, b, r);
  }

  lemma Minus(a: int, b: int, r: int)
    ensures (b - r) * a == a * b - a * r && r * a == a * r
  {
  }

  /** Dividing twice is dividing by the product. */
  lemma DivDiv(x: nat, a: nat, b: nat)
    requires a > 0 && b > 0
    ensures a * b > 0 && x / a / b == x / (a * b)
  {
    var y := x / a;
    ProductPositive(a, b);
    assert x == a * y + x % a && y == b * (y / b) + y % b;
    Between(x, a, b, y / b, y % b);
    Bits.DivModUnique(x, a * b, y / b, x - (y / b) * (a * b));
  }
}
