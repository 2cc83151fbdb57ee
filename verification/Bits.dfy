/** Bitwise operations on naturals, bit by bit, and the arithmetic they stand for.
    Masks, shifts and ors of the program are stated with these. */
module Bits {

  function Pow2(k: nat): (p: nat)
    ensures p > 0
  {
    if k == 0 then 1 else 2 * Pow2(k - 1)
  }

  function And(x: nat, y: nat): nat {
    if x == 0 || y == 0 then 0
    else (x % 2) * (y % 2) + 2 * And(x / 2, y / 2)
  }

  function Or(x: nat, y: nat): nat
    decreases x + y
  {
    if x == 0 then y else if y == 0 then x
    else (if x % 2 == 1 || y % 2 == 1 then 1 else 0) + 2 * Or(x / 2, y / 2)
  }

  /** The complement of y in a word of w bits. */
  function Not(y: nat, w: nat): nat {
    if y < Pow2(w) then Pow2(w) - 1 - y else 0
  }

  function ShiftLeft(x: nat, k: nat): nat { x * Pow2(k) }

  function ShiftRight(x: nat, k: nat): nat {
    QuotientNotNegative(x, Pow2(k));
    x / Pow2(k)
  }

  lemma QuotientNotNegative(x: int, m: int)
    requires x >= 0 && m > 0
    ensures x / m >= 0
  {
  }

  predicate IsPowerOfTwo(n: nat)
    decreases n
  {
    n == 1 || (n > 1 && n % 2 == 0 && IsPowerOfTwo(n / 2))
  }

  lemma {:induction false} PowerOfTwoExponent(n: nat) returns (k: nat)
    requires IsPowerOfTwo(n)
    ensures n == Pow2(k)
  {
    if n == 1 {
      k := 0;
    } else {
      var j := PowerOfTwoExponent(n / 2);
      k := j + 1;
    }
  }

  lemma {:induction false} Pow2Add(j: nat, k: nat)
    ensures Pow2(j + k) == Pow2(j) * Pow2(k)
  {
    if j > 0 {
      Pow2Add(j - 1, k);
      assert Pow2(j + k) == 2 * Pow2(j - 1 + k);
    }
  }

  lemma Pow2Sum(j: nat, k: nat, x: nat, y: nat)
    requires Pow2(j) == x && Pow2(k) == y
    ensures Pow2(j + k) == x * y
  {
    Pow2Add(j, k);
  }

  /** The powers that words of whole bytes need. */
  lemma WordPowers()
    ensures Pow2(8) == 0x100 && Pow2(16) == 0x1_0000 && Pow2(32) == 0x1_0000_0000
    ensures Pow2(56) == 0x100_0000_0000_0000 && Pow2(64) == 0x1_0000_0000_0000_0000
  {
    assert Pow2(4) == 16;
    Pow2Sum(4, 4, 16, 16);
    Pow2Sum(8, 8, 0x100, 0x100);
    Pow2Sum(16, 16, 0x1_0000, 0x1_0000);
    Pow2Sum(16, 8, 0x1_0000, 0x100);
    Pow2Sum(32, 24, 0x1_0000_0000, 0x100_0000);
    Pow2Sum(32, 32, 0x1_0000_0000, 0x1_0000_0000);
  }

  lemma DivModUnique(x: int, m: int, q: int, r: int)
    requires m > 0 && x == q * m + r && 0 <= r < m
    ensures x / m == q && x % m == r
  {
    var q' := x / m;
    assert (q - q') * m == x % m - r;
    if q > q' {
      MulAtLeast(q - q', m);
    } else if q < q' {
      MulAtLeast(q' - q, m);
    }
  }

  lemma MulAtLeast(d: int, m: int)
    requires d >= 1 && m > 0
    ensures d * m >= m
  {
    assert d * m == (d - 1) * m + m;
    assert (d - 1) * m >= 0;
  }

  lemma HalfOfMod(x: nat, m: nat)
    requires m > 0
    ensures (x % (2 * m)) == x % 2 + 2 * ((x / 2) % m)
  {
    var q, r := (x / 2) / m, (x / 2) % m;
    assert x == 2 * (x / 2) + x % 2;
    assert x / 2 == q * m + r;
    assert x == q * (2 * m) + (x % 2 + 2 * r);
    DivModUnique(x, 2 * m, q, x % 2 + 2 * r);
  }

  /** Masking with 2^k - 1 is the remainder modulo 2^k. */
  lemma {:induction false} AndMask(x: nat, k: nat)
    ensures And(x, Pow2(k) - 1) == x % Pow2(k)
  {
    if k == 0 {
    } else if x == 0 {
    } else {
      AndMask(x / 2, k - 1);
      HalfOfMod(x, Pow2(k - 1));
      assert (Pow2(k) - 1) / 2 == Pow2(k - 1) - 1;
      assert (Pow2(k) - 1) % 2 == 1;
    }
  }

  /** Masking with the complement of 2^k - 1 within w bits rounds down to a multiple of 2^k. */
  lemma {:induction false} AndComplementMask(x: nat, k: nat, w: nat)
    requires k <= w && x < Pow2(w)
    ensures And(x, Not(Pow2(k) - 1, w)) == x - x % Pow2(k)
    decreases w
  {
    Pow2Monotone(k, w);
    if x == 0 {
    } else if k == 0 {
      AndMask(x, w);
      DivModUnique(x, Pow2(w), 0, x);
    } else {
      AndComplementMask(x / 2, k - 1, w - 1);
      HalfOfMod(x, Pow2(k - 1));
      Pow2Monotone(k - 1, w - 1);
      AndEven(x, Not(Pow2(k - 1) - 1, w - 1));
    }
  }

  lemma AndEven(x: nat, y: nat)
    ensures And(x, 2 * y) == 2 * And(x / 2, y)
  {
    if x != 0 && y != 0 {
      assert (2 * y) % 2 == 0 && (2 * y) / 2 == y;
    }
  }

  lemma {:induction false} Pow2Monotone(j: nat, k: nat)
    requires j <= k
    ensures Pow2(j) <= Pow2(k)
  {
    if j < k { Pow2Monotone(j, k - 1); }
  }

  /** Or-ing a shifted word with a value that fits below the shift adds the two. */
  lemma {:induction false} OrDisjoint(x: nat, y: nat, k: nat)
    requires y < Pow2(k)
    ensures Or(ShiftLeft(x, k), y) == x * Pow2(k) + y
  {
    if k == 0 {
    } else if x == 0 {
    } else {
      OrDisjoint(x, y / 2, k - 1);
      OrStep(ShiftLeft(x, k - 1), y);
      assert ShiftLeft(x, k) == 2 * ShiftLeft(x, k - 1) by { DoubledShift(x, Pow2(k - 1)); }
    }
  }

  lemma DoubledShift(x: nat, p: nat)
    ensures x * (2 * p) == 2 * (x * p)
  {
  }

  lemma OrStep(a: nat, y: nat)
    ensures Or(2 * a, y) == y % 2 + 2 * Or(a, y / 2)
  {
    if a > 0 {
      assert (2 * a) / 2 == a && (2 * a) % 2 == 0;
    }
  }
}
