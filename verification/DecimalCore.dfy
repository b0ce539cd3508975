/**
 Fixed-point decimals: an `i128` scaled by 10^18. Addition saturates, multiplication and
 division round half away from zero through a 256-bit intermediate and then saturate.
 */
module DecimalCore {
  import opened Arith

  const SCALE: int := 1_000_000_000_000_000_000

  /** The greatest whole number in range. */
  const WIDEST: int := 170_141_183_460_469_231_731

  datatype Decimal = Decimal(raw: I128)

  const ZERO: Decimal := Decimal(0)

  function Add(a: Decimal, b: Decimal): Decimal { Decimal(ClampI128(a.raw + b.raw)) }

  function Sub(a: Decimal, b: Decimal): Decimal { Decimal(ClampI128(a.raw - b.raw)) }

  function Neg(a: Decimal): Decimal { Decimal(ClampI128(0 - a.raw)) }

  /** `abs` saturates at the one value that has no positive counterpart. */
  function AbsD(a: Decimal): Decimal { Decimal(ClampI128(Abs(a.raw))) }

  function MaxD(a: Decimal, b: Decimal): Decimal { if a.raw >= b.raw then a else b }

  function MinD(a: Decimal, b: Decimal): Decimal { if a.raw <= b.raw then a else b }

  function Mul(a: Decimal, b: Decimal): Decimal {
    var prod := a.raw * b.raw;
    var half := if prod < 0 then -(SCALE / 2) else SCALE / 2;
    Decimal(ClampI128(TruncDiv(prod + half, SCALE)))
  }

  function Div(a: Decimal, b: Decimal): Decimal
    requires b.raw != 0
  {
    var neg := (a.raw < 0) != (b.raw < 0);
    var num := Abs(a.raw) * SCALE;
    var den := Abs(b.raw);
    var q := (num + den / 2) / den;
    Decimal(ClampI128(if neg then -q else q))
  }

  function Floor(a: Decimal): Decimal {
    var whole := TruncDiv(a.raw, SCALE);
    var base := if TruncMod(a.raw, SCALE) < 0 then whole - 1 else whole;
    Decimal(ClampI128(base * SCALE))
  }

  function Ceil(a: Decimal): Decimal {
    var whole := TruncDiv(a.raw, SCALE);
    var base := if TruncMod(a.raw, SCALE) > 0 then whole + 1 else whole;
    Decimal(ClampI128(base * SCALE))
  }

  function FloorToStep(v: Decimal, step: Decimal): Decimal
    requires step.raw != 0
  {
    Mul(Floor(Div(v, step)), step)
  }

  function CeilToStep(v: Decimal, step: Decimal): Decimal
    requires step.raw != 0
  {
    Mul(Ceil(Div(v, step)), step)
  }

  // ---------------------------------------------------------------- rounding

  /** x is a multiple of d nearest to n, an exact tie going away from zero. */
  ghost predicate Nearest(n: int, d: int, x: int) {
    2 * Abs(n - x) < d || (2 * Abs(n - x) == d && Abs(x) > Abs(n))
  }

  /** q is n/d rounded to the nearest integer, an exact tie going away from zero. */
  ghost predicate RoundsHalfAway(n: int, d: int, q: int)
    requires d > 0
  {
    Nearest(n, d, q * d)
  }

  lemma {:induction false} NearestIsMonotone(n: int, m: int, d: int, x: int, y: int)
    requires d > 0 && n <= m && Nearest(n, d, x) && Nearest(m, d, y)
    requires (x <= y || x >= y + d) && (y >= 0 || y <= -d)
    ensures x <= y
  {
  }

  lemma {:induction false} MultiplesAreApart(q: int, p: int, d: int)
    requires d > 0
    ensures q <= p <==> q * d <= p * d
    ensures q > p ==> q * d >= p * d + d
  {
    if q <= p { MulLe(q, p, d); } else { MulLe(p + 1, q, d); }
  }

  /** Rounding never reverses an order; with n == m this says the rounded value is unique. */
  lemma {:induction false} RoundingIsMonotone(n: int, m: int, d: int, q: int, p: int)
    requires d > 0 && n <= m
    requires RoundsHalfAway(n, d, q) && RoundsHalfAway(m, d, p)
    ensures q <= p
  {
    MultiplesAreApart(0, p, d);
    MultiplesAreApart(q, p, d);
    NearestIsMonotone(n, m, d, q * d, p * d);
  }

  /** For a non-negative numerator, adding half the divisor before dividing rounds half up. */
  lemma {:induction false} HalfUpDivision(n: int, d: int)
    requires n >= 0 && d > 0
    ensures RoundsHalfAway(n, d, (n + d / 2) / d)
    ensures (n + d / 2) / d >= 0
  {
    var q := (n + d / 2) / d;
    DivBounds(n + d / 2, d);
    assert q * d <= n + d / 2 < q * d + d;
    if q < 0 {
      MulLe(q, -1, d);
      assert false;
    }
  }

  lemma {:induction false} RoundingIsOdd(n: int, d: int, q: int)
    requires d > 0 && RoundsHalfAway(n, d, q)
    ensures RoundsHalfAway(-n, d, -q)
  {
    assert -n - (-q) * d == -(n - q * d);
    assert (-q) * d == -(q * d);
  }

  /** The unclamped value that Mul rounds to. */
  ghost function MulQuotient(a: Decimal, b: Decimal): int {
    var prod := a.raw * b.raw;
    TruncDiv(prod + (if prod < 0 then -(SCALE / 2) else SCALE / 2), SCALE)
  }

  /** The unclamped value that Div rounds to. */
  ghost function DivQuotient(a: Decimal, b: Decimal): int
    requires b.raw != 0
  {
    var q := (Abs(a.raw) * SCALE + Abs(b.raw) / 2) / Abs(b.raw);
    if (a.raw < 0) != (b.raw < 0) then -q else q
  }

  /** The exact dividend of a division by |b|: a scaled up, with the sign of the quotient. */
  ghost function SignedDividend(a: Decimal, b: Decimal): int {
    if b.raw < 0 then (0 - a.raw) * SCALE else a.raw * SCALE
  }

  /** Multiplication is correctly rounded: any q that is a*b rounded half away is the result, up to saturation. */
  lemma {:induction false} MulIsCorrectlyRounded(a: Decimal, b: Decimal)
    ensures RoundsHalfAway(a.raw * b.raw, SCALE, MulQuotient(a, b))
    ensures forall q: int | RoundsHalfAway(a.raw * b.raw, SCALE, q) :: Mul(a, b).raw == ClampI128(q)
  {
    var n := a.raw * b.raw;
    HalfUpDivision(Abs(n), SCALE);
    if n < 0 {
      RoundingIsOdd(-n, SCALE, (-n + SCALE / 2) / SCALE);
    }
    forall q: int | RoundsHalfAway(n, SCALE, q) ensures q == MulQuotient(a, b) {
      RoundingIsMonotone(n, n, SCALE, q, MulQuotient(a, b));
      RoundingIsMonotone(n, n, SCALE, MulQuotient(a, b), q);
    }
  }

  /** Division is correctly rounded for every non-zero divisor, including the most negative operands. */
  lemma {:induction false} DivIsCorrectlyRounded(a: Decimal, b: Decimal)
    requires b.raw != 0
    ensures RoundsHalfAway(SignedDividend(a, b), Abs(b.raw), DivQuotient(a, b))
    ensures forall q: int | RoundsHalfAway(SignedDividend(a, b), Abs(b.raw), q) :: Div(a, b).raw == ClampI128(q)
  {
    var n, d := SignedDividend(a, b), Abs(b.raw);
    HalfUpDivision(Abs(a.raw) * SCALE, d);
    if n < 0 {
      RoundingIsOdd(-n, d, (-n + d / 2) / d);
    } else if n == 0 {
      DivIs(d / 2, d, 0);
    }
    forall q: int | RoundsHalfAway(n, d, q) ensures q == DivQuotient(a, b) {
      RoundingIsMonotone(n, n, d, q, DivQuotient(a, b));
      RoundingIsMonotone(n, n, d, DivQuotient(a, b), q);
    }
  }

  lemma {:induction false} AbsProduct(a: int, b: int)
    ensures Abs(a * b) == Abs(a) * Abs(b)
  {
    if a < 0 && b < 0 {
      assert a * b == (-a) * (-b);
    } else if a < 0 {
      assert (-a) * b == -(a * b);
    } else if b < 0 {
      assert a * (-b) == -(a * b);
    }
  }

  lemma {:induction false} ProductBound(a: I128, b: I128)
    ensures Abs(a * b) <= I128_MIN * I128_MIN
  {
    var m: int := 0 - I128_MIN;
    AbsProduct(a, b);
    MulLe(Abs(a), m, Abs(b));
    MulLe(Abs(b), m, m);
  }

  /** No intermediate of Mul or Div leaves the 256-bit range. */
  lemma {:induction false} IntermediatesFitI256(a: Decimal, b: Decimal)
    ensures FitsI256(a.raw * b.raw + SCALE / 2) && FitsI256(a.raw * b.raw - SCALE / 2)
    ensures FitsI256(Abs(a.raw) * SCALE + Abs(b.raw) / 2)
  {
    ProductBound(a.raw, b.raw);
    MulLe(Abs(a.raw), -I128_MIN, SCALE);
  }

  /** Multiplying by a non-negative factor keeps the order, through rounding and saturation. */
  lemma {:induction false} MulIsMonotone(a: Decimal, b: Decimal, c: Decimal)
    requires a.raw <= b.raw && c.raw >= 0
    ensures Mul(a, c).raw <= Mul(b, c).raw
  {
    MulLe(a.raw, b.raw, c.raw);
    MulIsCorrectlyRounded(a, c);
    MulIsCorrectlyRounded(b, c);
    RoundingIsMonotone(a.raw * c.raw, b.raw * c.raw, SCALE, MulQuotient(a, c), MulQuotient(b, c));
  }

  /** Dividing by a positive divisor keeps the order, through rounding and saturation. */
  lemma {:induction false} DivIsMonotone(a: Decimal, b: Decimal, c: Decimal)
    requires a.raw <= b.raw && c.raw > 0
    ensures Div(a, c).raw <= Div(b, c).raw
  {
    DivIsCorrectlyRounded(a, c);
    DivIsCorrectlyRounded(b, c);
    RoundingIsMonotone(a.raw * SCALE, b.raw * SCALE, c.raw, DivQuotient(a, c), DivQuotient(b, c));
  }

  lemma {:induction false} MulNonNegative(a: Decimal, b: Decimal)
    requires a.raw >= 0 && b.raw >= 0
    ensures Mul(a, b).raw >= 0
  {
    MulIsMonotone(ZERO, a, b);
  }

  lemma {:induction false} MulByZero(b: Decimal)
    ensures Mul(ZERO, b) == ZERO
  {
    assert 0 * b.raw == 0;
    DivIs(SCALE / 2, SCALE, 0);
  }

  lemma {:induction false} DivQuotientError(a: Decimal, b: Decimal)
    requires b.raw != 0 && FitsI128(DivQuotient(a, b))
    ensures 2 * Abs(a.raw * SCALE - Div(a, b).raw * b.raw) <= Abs(b.raw)
  {
    DivIsCorrectlyRounded(a, b);
    var q := DivQuotient(a, b);
    if b.raw < 0 {
      assert q * Abs(b.raw) == -(q * b.raw);
    }
  }

  lemma {:induction false} MulQuotientError(a: Decimal, b: Decimal)
    requires FitsI128(MulQuotient(a, b))
    ensures 2 * Abs(a.raw * b.raw - Mul(a, b).raw * SCALE) <= SCALE
  {
    MulIsCorrectlyRounded(a, b);
  }

  /**
   Dividing and multiplying back: without saturation the result is within
   |b|/(2*10^18) + 1/2 raw units of where it started.
   */
  lemma {:induction false} DivThenMulError(a: Decimal, b: Decimal)
    requires b.raw != 0
    requires FitsI128(DivQuotient(a, b)) && FitsI128(MulQuotient(Div(a, b), b))
    ensures 2 * SCALE * Abs(Mul(Div(a, b), b).raw - a.raw) <= Abs(b.raw) + SCALE
  {
    DivQuotientError(a, b);
    MulQuotientError(Div(a, b), b);
    var between := Div(a, b).raw * b.raw;
    assert 2 * Abs(a.raw * SCALE - between) <= Abs(b.raw);
    assert 2 * Abs(between - Mul(Div(a, b), b).raw * SCALE) <= SCALE;
  }
}
