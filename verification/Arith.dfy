/** Machine integer bounds, truncated division and powers of ten. */
module Arith {
  const I128_MIN: int := -0x8000_0000_0000_0000_0000_0000_0000_0000
  const I128_MAX: int := 0x7FFF_FFFF_FFFF_FFFF_FFFF_FFFF_FFFF_FFFF
  const I256_BOUND: int := 0x8000_0000_0000_0000_0000_0000_0000_0000_0000_0000_0000_0000_0000_0000_0000_0000

  predicate FitsI128(x: int) { I128_MIN <= x <= I128_MAX }

  predicate FitsI256(x: int) { -I256_BOUND <= x < I256_BOUND }

  type I128 = x: int | I128_MIN <= x <= I128_MAX

  function Abs(x: int): (r: nat) { if x < 0 then -x else x }

  function Max(x: int, y: int): int { if x >= y then x else y }

  function Min(x: int, y: int): int { if x <= y then x else y }

  /** Saturating narrowing, as `signed_to_i128` and the `saturating_*` operators do. */
  function ClampI128(x: int): I128 {
    if x < I128_MIN then I128_MIN else if x > I128_MAX then I128_MAX else x
  }

  /** Division as Rust's integer types do it: toward zero. */
  function TruncDiv(n: int, d: int): int
    requires d > 0
  {
    if n < 0 then -((-n) / d) else n / d
  }

  /** The remainder of TruncDiv: it has the sign of the dividend. */
  function TruncMod(n: int, d: int): int
    requires d > 0
  {
    if n < 0 then -((-n) % d) else n % d
  }

  function Pow10(e: nat): (r: int)
    ensures r >= 1
  {
    if e == 0 then 1 else 10 * Pow10(e - 1)
  }

  lemma {:induction false} Pow10Add(a: nat, b: nat)
    ensures Pow10(a + b) == Pow10(a) * Pow10(b)
  {
    if a != 0 {
      Pow10Add(a - 1, b);
      assert 10 * (Pow10(a - 1) * Pow10(b)) == (10 * Pow10(a - 1)) * Pow10(b);
    }
  }

  lemma {:induction false} Pow10Monotone(a: nat, b: nat)
    requires a <= b
    ensures Pow10(a) <= Pow10(b)
  {
    if a < b {
      Pow10Monotone(a, b - 1);
    }
  }

  lemma {:induction false} Pow10Values()
    ensures Pow10(1) == 10 && Pow10(2) == 100
    ensures Pow10(18) == 1_000_000_000_000_000_000
    ensures Pow10(38) == 100_000_000_000_000_000_000_000_000_000_000_000_000
  {
    assert Pow10(6) == 1_000_000;
    Pow10Add(6, 6);
    Pow10Add(12, 6);
    Pow10Add(18, 18);
    Pow10Add(36, 2);
  }

  /** Multiplying an inequality by a non-negative factor. */
  lemma {:induction false} MulLe(a: int, b: int, c: int)
    requires a <= b && c >= 0
    ensures a * c <= b * c
  {
  }

  /** Multiplying a strict inequality by a positive factor. */
  lemma {:induction false} MulLt(a: int, b: int, c: int)
    requires a < b && c > 0
    ensures a * c < b * c
  {
  }

  /** A quotient is fixed by the interval its multiple of the divisor falls in. */
  lemma {:induction false} DivIs(n: int, d: int, q: int)
    requires d > 0 && q * d <= n < (q + 1) * d
    ensures n / d == q
  {
    var k := n / d;
    assert k * d <= n < (k + 1) * d by {
      assert n == d * k + n % d;
    }
    if k < q { MulLe(k + 1, q, d); }
    if k > q { MulLe(q + 1, k, d); }
  }

  lemma {:induction false} DivBounds(n: int, d: int)
    requires d > 0
    ensures (n / d) * d <= n < (n / d + 1) * d
    ensures n == (n / d) * d + n % d
  {
  }
}
