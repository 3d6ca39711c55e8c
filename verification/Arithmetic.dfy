/** Powers of two and quotients. */
module Arithmetic {

  function Pow2(n: nat): (r: nat)
    ensures r > 0
  {
    if n == 0 then 1 else 2 * Pow2(n - 1)
  }

  lemma {:induction false} PowSum(a: nat, b: nat)
    ensures Pow2(a + b) == Pow2(a) * Pow2(b)
  {
    if a > 0 {
      PowSum(a - 1, b);
      assert Pow2(a + b) == 2 * (Pow2(a - 1) * Pow2(b));
    }
  }

  lemma {:induction false} PowMono(a: nat, b: nat)
    requires a <= b
    ensures Pow2(a) <= Pow2(b) && (a < b ==> Pow2(a) < Pow2(b))
  {
    if a < b {
      PowMono(a, b - 1);
    }
  }

  lemma PowValues()
    ensures Pow2(9) == 512 && Pow2(21) == 0x20_0000 && Pow2(23) == 0x80_0000 && Pow2(31) == 0x8000_0000
    ensures Pow2(32) == 0x1_0000_0000 && Pow2(52) == 0x10_0000_0000_0000
  {
    assert Pow2(10) == 1024 && Pow2(1) == 2 && Pow2(2) == 4 && Pow2(3) == 8;
    PowSum(10, 10);
    PowSum(20, 1);
    PowSum(20, 3);
    PowSum(21, 10);
    PowSum(31, 1);
    PowSum(21, 31);
  }

  lemma Pow32()
    ensures Pow2(32) == 0x1_0000_0000
  {
    PowValues();
  }

  lemma MulMono(a: int, b: int, d: nat)
    requires a <= b
    ensures a * d <= b * d
  {
    assert (b - a) * d >= 0;
  }

  /** The quotient is the one multiple that fits. */
  lemma QuotientIs(n: int, d: nat, q: int)
    requires d > 0 && q * d <= n < q * d + d
    ensures n / d == q && n % d == n - q * d
  {
    var r := n / d;
    assert n == r * d + n % d;
    if r > q {
      MulMono(q + 1, r, d);
    }
    if r < q {
      MulMono(r + 1, q, d);
    }
  }

  lemma QuotientAtLeast(n: int, d: nat, q: int)
    requires d > 0 && q * d <= n
    ensures n / d >= q
  {
    var r := n / d;
    assert n == r * d + n % d;
    if r < q {
      MulMono(r + 1, q, d);
    }
  }

  lemma QuotientBelow(n: int, d: nat, bound: int)
    requires d > 0 && n < bound * d
    ensures n / d < bound
  {
    var r := n / d;
    assert n == r * d + n % d;
    if r >= bound {
      MulMono(bound, r, d);
    }
  }
}
