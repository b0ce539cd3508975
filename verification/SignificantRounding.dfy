/**
 Normalisation to 28 significant digits, half to even, as the display form applies it.
 Powers of ten are rebuilt in the machine type, so that no step overflows is part of the claim.
 */
module SignificantRounding {
  import opened Arith
  import opened DecimalCore
  import opened Digits

  /** Divide out trailing zeros while the exponent stays negative. */
  function StripZeros(raw: int, exp: int): (t: (int, int))
    requires exp <= 0
    ensures exp <= t.1 <= 0
    decreases -exp
  {
    if raw != 0 && raw % 10 == 0 && exp < 0 then StripZeros(raw / 10, exp + 1) else (raw, exp)
  }

  lemma {:induction false} ShiftDigit(c: int, p: int)
    ensures c * (10 * p) == 10 * c * p == 10 * (c * p)
  {
  }

  method AsTuple(d: Decimal) returns (coeff: int, exp: int)
    ensures (coeff, exp) == StripZeros(d.raw, -18)
    ensures -18 <= exp <= 0 && d.raw == coeff * Pow10(exp + 18)
    ensures exp < 0 && coeff != 0 ==> coeff % 10 != 0
  {
    coeff, exp := d.raw, -18;
    while coeff != 0 && coeff % 10 == 0 && exp < 0
      invariant -18 <= exp <= 0
      invariant StripZeros(coeff, exp) == StripZeros(d.raw, -18)
      invariant d.raw == coeff * Pow10(exp + 18)
      decreases -exp
    {
      ShiftDigit(coeff / 10, Pow10(exp + 18));
      coeff, exp := coeff / 10, exp + 1;
    }
  }

  /** n / div, rounded half to even. */
  function HalfEvenQuotient(n: nat, div: int): (q: int)
    requires div > 0
    ensures q >= 0
  {
    var q := n / div;
    var rem := n % div;
    if rem > div / 2 || (rem == div / 2 && q % 2 == 1) then q + 1 else q
  }

  /** Round the magnitude `coeff` to `prec` digits. */
  function RoundedCoefficient(coeff: nat, prec: nat): int
    requires DigitCount(coeff) > prec
  {
    HalfEvenQuotient(coeff, Pow10(DigitCount(coeff) - prec))
  }

  /** Rebuild `rounded` * 10^e at scale 18, with the sign of the original value. */
  function Rebuild(rounded: int, e: int, negative: bool): int
    requires -18 <= e
  {
    var signed := if negative then -rounded else rounded;
    if e >= 0 then signed * Pow10(e) else signed * Pow10(18 + e)
  }

  /**
   `round_significant_half_even`. The result is left as an unbounded integer;
   RoundingNeverOverflows shows that it fits the machine type.
   */
  function RoundSignificant(raw: int, prec: nat): int {
    if raw == 0 || prec == 0 then raw else
    var (coeff, exp) := StripZeros(raw, -18);
    var digits := DigitCount(Abs(coeff));
    if digits <= prec then raw
    else Rebuild(RoundedCoefficient(Abs(coeff), prec), exp + (digits - prec), raw < 0)
  }

  /** The rounding unit of a value with more than 28 significant raw digits. */
  ghost function Unit28(raw: int): int
    requires DigitCount(Abs(raw)) > 28
  {
    Pow10(DigitCount(Abs(raw)) - 28)
  }

  /** y is the multiple of u nearest to x, an exact tie going to the even multiple. */
  ghost predicate HalfEven(x: int, u: int, y: int)
    requires u > 0
  {
    exists m: int :: y == m * u && 2 * Abs(x - y) <= u && (2 * Abs(x - y) == u ==> m % 2 == 0)
  }

  lemma {:induction false} HalfEvenIsUnique(x: int, u: int, y: int, z: int)
    requires u > 0 && HalfEven(x, u, y) && HalfEven(x, u, z)
    ensures y == z
  {
    var m: int :| y == m * u && 2 * Abs(x - y) <= u && (2 * Abs(x - y) == u ==> m % 2 == 0);
    var k: int :| z == k * u && 2 * Abs(x - z) <= u && (2 * Abs(x - z) == u ==> k % 2 == 0);
    MultiplesAreApart(m, k, u);
    MultiplesAreApart(k, m, u);
    if m > k + 1 { MultiplesAreApart(m, k + 1, u); }
    if k > m + 1 { MultiplesAreApart(k, m + 1, u); }
  }

  // -------------------------------------------------- the tuple of a value

  lemma {:induction false} StripZerosShape(raw: int, exp: int)
    requires -18 <= exp <= 0
    ensures var (c, e) := StripZeros(raw, exp);
      && exp <= e <= 0
      && raw == c * Pow10(e - exp)
      && (raw == 0 <==> c == 0) && (raw < 0 <==> c < 0)
      && (raw != 0 ==> DigitCount(Abs(raw)) == DigitCount(Abs(c)) + (e - exp))
    decreases -exp
  {
    if raw != 0 && raw % 10 == 0 && exp < 0 {
      StripZerosShape(raw / 10, exp + 1);
      assert Abs(raw) / 10 == Abs(raw / 10);
      var (c, e) := StripZeros(raw / 10, exp + 1);
      ShiftDigit(c, Pow10(e - exp - 1));
      assert Pow10(e - exp) == 10 * Pow10(e - exp - 1);
    }
  }

  lemma {:induction false} HalfEvenQuotientIsNearest(n: nat, div: int)
    requires div > 0 && div % 2 == 0
    ensures HalfEven(n, div, HalfEvenQuotient(n, div) * div)
  {
    DivBounds(n, div);
    assert (n / div + 1) * div == n / div * div + div;
  }

  lemma {:induction false} Pow10IsEven(e: nat)
    requires e > 0
    ensures Pow10(e) % 2 == 0
  {
    assert Pow10(e) == 2 * (5 * Pow10(e - 1));
  }

  lemma {:induction false} MulAssoc(a: int, b: int, c: int)
    ensures a * (b * c) == (a * b) * c
  {
  }

  /** Scaling the value and the unit together scales the half-even rounding. */
  lemma {:induction false} HalfEvenScales(x: int, u: int, y: int, k: int)
    requires u > 0 && k > 0 && HalfEven(x, u, y)
    ensures u * k > 0 && HalfEven(x * k, u * k, y * k)
  {
    var m: int :| y == m * u && 2 * Abs(x - y) <= u && (2 * Abs(x - y) == u ==> m % 2 == 0);
    ScaledDistance(x, y, u, k);
    MulAssoc(m, u, k);
    assert y * k == m * (u * k);
  }

  lemma {:induction false} ScaledDistance(x: int, y: int, u: int, k: int)
    requires u > 0 && k > 0
    ensures u * k > 0
    ensures 2 * Abs(x - y) <= u <==> 2 * Abs(x * k - y * k) <= u * k
    ensures 2 * Abs(x - y) == u <==> 2 * Abs(x * k - y * k) == u * k
  {
    assert x * k - y * k == (x - y) * k;
    AbsProduct(x - y, k);
    var d := 2 * Abs(x - y);
    assert d * k == 2 * (Abs(x - y) * k);
    if d < u { MulLt(d, u, k); } else if d > u { MulLt(u, d, k); }
  }

  lemma {:induction false} HalfEvenIsOdd(x: int, u: int, y: int)
    requires u > 0 && HalfEven(x, u, y)
    ensures HalfEven(-x, u, -y)
  {
    var m: int :| y == m * u && 2 * Abs(x - y) <= u && (2 * Abs(x - y) == u ==> m % 2 == 0);
    assert -y == (-m) * u;
  }

  lemma {:induction false} MultipleIsItsOwnRounding(m: int, u: int)
    requires u > 0
    ensures HalfEven(m * u, u, m * u)
  {
  }

  /** A value with at most 39 raw digits never reaches the branch that rebuilds at a non-negative exponent. */
  lemma {:induction false} RebuildExponentIsNegative(raw: int)
    requires raw != 0 && DigitCount(Abs(raw)) <= 39
    ensures var (coeff, exp) := StripZeros(raw, -18);
      DigitCount(Abs(coeff)) > 28 ==> -18 <= exp + (DigitCount(Abs(coeff)) - 28) <= -7
  {
    StripZerosShape(raw, -18);
  }

  /** Above 28 digits the result is the half-even rounding to the 28th digit; below, nothing changes. */
  lemma {:induction false} RoundSignificantIsHalfEven(raw: int)
    requires DigitCount(Abs(raw)) <= 39
    ensures DigitCount(Abs(raw)) <= 28 ==> RoundSignificant(raw, 28) == raw
    ensures DigitCount(Abs(raw)) > 28 ==> HalfEven(raw, Unit28(raw), RoundSignificant(raw, 28))
  {
    if raw != 0 {
      StripZerosShape(raw, -18);
      var (c, e) := StripZeros(raw, -18);
      if DigitCount(Abs(raw)) > 28 {
        if DigitCount(Abs(c)) <= 28 {
          FewDigitsNeedNoRounding(raw, c, e);
        } else {
          ManyDigitsAreRounded(raw, c, e);
        }
      }
    }
  }

  lemma {:induction false} FewDigitsNeedNoRounding(raw: int, c: int, e: int)
    requires -18 <= e <= 0 && raw == c * Pow10(e + 18)
    requires DigitCount(Abs(c)) <= 28 < DigitCount(Abs(raw)) == DigitCount(Abs(c)) + (e + 18)
    ensures HalfEven(raw, Unit28(raw), raw)
  {
    var lift := Pow10(28 - DigitCount(Abs(c)));
    Pow10Add(28 - DigitCount(Abs(c)), DigitCount(Abs(raw)) - 28);
    MulAssoc(c, lift, Unit28(raw));
    MultipleIsItsOwnRounding(c * lift, Unit28(raw));
  }

  lemma {:induction false} ManyDigitsAreRounded(raw: int, c: int, e: int)
    requires raw != 0 && (c, e) == StripZeros(raw, -18) && -18 <= e <= 0
    requires raw == c * Pow10(e + 18) && (raw < 0 <==> c < 0)
    requires DigitCount(Abs(c)) > 28 && DigitCount(Abs(raw)) == DigitCount(Abs(c)) + (e + 18) <= 39
    ensures HalfEven(raw, Unit28(raw), RoundSignificant(raw, 28))
  {
    hide HalfEven, Rebuild, RoundedCoefficient, DigitCount, StripZeros;
    var drop := DigitCount(Abs(c)) - 28;
    var rounded := RoundedCoefficient(Abs(c), 28);
    MagnitudeIsRounded(Abs(c), drop, e + 18);
    assert Abs(raw) == Abs(c) * Pow10(e + 18) by { AbsProduct(c, Pow10(e + 18)); }
    var x, u, y: int := Abs(raw), Unit28(raw), rounded * Unit28(raw);
    assert HalfEven(x, u, y);
    RebuiltValue(rounded, e + drop, raw < 0);
    HalfEvenIsOdd(x, u, y);
  }

  lemma {:induction false} NegProduct(a: int, b: int)
    ensures (-a) * b == -(a * b)
  {
  }

  lemma {:induction false} RebuiltValue(rounded: int, e: int, negative: bool)
    requires -18 <= e < 0
    ensures var y := rounded * Pow10(18 + e); Rebuild(rounded, e, negative) == if negative then -y else y
  {
    NegProduct(rounded, Pow10(18 + e));
  }

  lemma {:induction false} MagnitudeIsRounded(c: nat, drop: nat, lift: nat)
    requires DigitCount(c) == drop + 28 && drop > 0
    ensures HalfEven(c * Pow10(lift), Pow10(drop + lift), RoundedCoefficient(c, 28) * Pow10(drop + lift))
  {
    var rounded := RoundedCoefficient(c, 28);
    Pow10IsEven(drop);
    HalfEvenQuotientIsNearest(c, Pow10(drop));
    HalfEvenScales(c, Pow10(drop), rounded * Pow10(drop), Pow10(lift));
    Pow10Add(drop, lift);
    MulAssoc(rounded, Pow10(drop), Pow10(lift));
  }

  // -------------------------------------------------- range and idempotence

  lemma {:induction false} DigitCountOfI128(raw: I128)
    ensures DigitCount(Abs(raw)) <= 39
  {
    DigitCountBounds(Abs(raw));
    Pow10Values();
    Pow10Add(38, 1);
    if DigitCount(Abs(raw)) > 39 {
      Pow10Monotone(39, DigitCount(Abs(raw)) - 1);
    }
  }

  /** Rounding never crosses a multiple of the unit. */
  lemma {:induction false} RoundingStaysBelow(x: int, u: int, y: int, m: int)
    requires u > 0 && HalfEven(x, u, y) && 2 * (x - m * u) < u
    ensures y <= m * u
  {
    var k: int :| y == k * u && 2 * Abs(x - y) <= u && (2 * Abs(x - y) == u ==> k % 2 == 0);
    MultiplesAreApart(k, m, u);
  }

  lemma {:induction false} MagnitudeRounds(x: int, u: int, y: int)
    requires u > 0 && HalfEven(x, u, y)
    ensures HalfEven(Abs(x), u, Abs(y))
  {
    var m: int :| y == m * u && 2 * Abs(x - y) <= u && (2 * Abs(x - y) == u ==> m % 2 == 0);
    MultiplesAreApart(m, 0, u);
    if m < 0 { MultiplesAreApart(0, m, u); }
    HalfEvenIsOdd(x, u, y);
  }

  /** Rounding up reaches at most the next power of ten. */
  lemma {:induction false} RoundingGainsAtMostOneDigit(raw: I128)
    requires DigitCount(Abs(raw)) > 28
    ensures Abs(RoundSignificant(raw, 28)) <= Pow10(DigitCount(Abs(raw)))
  {
    DigitCountOfI128(raw);
    DigitCountBounds(Abs(raw));
    RoundSignificantIsHalfEven(raw);
    MagnitudeRounds(raw, Unit28(raw), RoundSignificant(raw, 28));
    var n, u, y := DigitCount(Abs(raw)), Unit28(raw), RoundSignificant(raw, 28);
    assert Pow10(n) == Pow10(28) * u by { Pow10Add(28, n - 28); }
    assert HalfEven(Abs(raw), u, Abs(y));
    RoundingStaysBelow(Abs(raw), u, Abs(y), Pow10(28));
  }

  lemma {:induction false} FullWidthRoundsInRange(raw: I128)
    requires DigitCount(Abs(raw)) == 39
    ensures Abs(RoundSignificant(raw, 28)) <= I128_MAX
  {
    var u := Unit28(raw);
    assert u == 100_000_000_000 by {
      Pow10Add(5, 6);
      assert Pow10(5) == 100_000 && Pow10(6) == 1_000_000;
    }
    RoundSignificantIsHalfEven(raw);
    MagnitudeRounds(raw, u, RoundSignificant(raw, 28));
    // The largest multiple of the unit inside the range; the range ends less than half a unit above it.
    RoundingStaysBelow(Abs(raw), u, Abs(RoundSignificant(raw, 28)), 1_701_411_834_604_692_317_316_873_037);
  }

  /** No step of the normalisation leaves the machine type, for any raw value. */
  lemma {:induction false} RoundingNeverOverflows(raw: I128)
    ensures FitsI128(RoundSignificant(raw, 28))
  {
    DigitCountOfI128(raw);
    RoundSignificantIsHalfEven(raw);
    if DigitCount(Abs(raw)) == 39 {
      FullWidthRoundsInRange(raw);
    } else if DigitCount(Abs(raw)) > 28 {
      RoundingGainsAtMostOneDigit(raw);
      Pow10Monotone(DigitCount(Abs(raw)), 38);
      Pow10Values();
    }
  }

  /** A second normalisation changes nothing. */
  lemma {:induction false} RoundSignificantIsIdempotent(raw: I128)
    ensures RoundSignificant(RoundSignificant(raw, 28), 28) == RoundSignificant(raw, 28)
  {
    DigitCountOfI128(raw);
    RoundSignificantIsHalfEven(raw);
    var n := DigitCount(Abs(raw));
    if n > 28 {
      var y, u := RoundSignificant(raw, 28), Unit28(raw);
      RoundingNeverOverflows(raw);
      DigitCountOfI128(y);
      RoundSignificantIsHalfEven(y);
      RoundedMultiple(raw);
      if DigitCount(Abs(y)) > 28 {
        var m: int :| y == m * Unit28(y);
        MultipleIsItsOwnRounding(m, Unit28(y));
        HalfEvenIsUnique(y, Unit28(y), y, RoundSignificant(y, 28));
      }
    }
  }

  /** The rounded value is a whole number of its own rounding units, even when it gained a digit. */
  lemma {:induction false} RoundedMultiple(raw: I128)
    requires DigitCount(Abs(raw)) > 28
    ensures var y := RoundSignificant(raw, 28);
      DigitCount(Abs(y)) > 28 ==> exists m: int :: y == m * Unit28(y)
  {
    var n := DigitCount(Abs(raw));
    DigitCountOfI128(raw);
    RoundSignificantIsHalfEven(raw);
    RoundingGainsAtMostOneDigit(raw);
    var y, u := RoundSignificant(raw, 28), Unit28(raw);
    var m: int :| y == m * u && 2 * Abs(raw - y) <= u;
    if DigitCount(Abs(y)) > 28 {
      if Abs(y) < Pow10(n) {
        SmallerUnitDivides(n, y, m);
      } else {
        PowerOfTenIsItsOwnUnits(n, y);
      }
    }
  }

  lemma {:induction false} SmallerUnitDivides(n: nat, y: int, m: int)
    requires n > 28 && y == m * Pow10(n - 28) && Abs(y) < Pow10(n) && DigitCount(Abs(y)) > 28
    ensures exists j: int :: y == j * Unit28(y)
  {
    var k := DigitCount(Abs(y));
    DigitCountBounds(Abs(y));
    if k > n { Pow10Monotone(n, k - 1); }
    assert Pow10(n - 28) == Pow10(n - k) * Pow10(k - 28) by { Pow10Add(n - k, k - 28); }
    MulAssoc(m, Pow10(n - k), Pow10(k - 28));
    assert y == (m * Pow10(n - k)) * Unit28(y);
  }

  lemma {:induction false} PowerOfTenIsItsOwnUnits(n: nat, y: int)
    requires n > 28 && Abs(y) == Pow10(n) && DigitCount(Abs(y)) > 28
    ensures exists j: int :: y == j * Unit28(y)
  {
    assert Pow10(n + 1) == 10 * Pow10(n);
    DigitCountIs(Abs(y), n + 1);
    Pow10Add(27, n - 27);
    var sign := if y < 0 then -1 else 1;
    MulAssoc(sign, Pow10(27), Pow10(n - 27));
    assert y == (sign * Pow10(27)) * Unit28(y);
  }
}
