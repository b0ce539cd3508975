/**
 Rounding a value to a tick or lot step goes through the rounded division, so it is not
 obviously exact. It is, for every step below 2; for larger steps exactly the values too
 close to the next multiple are moved past it.
 */
module StepRounding {
  import opened Arith
  import opened DecimalCore

  ghost predicate GreatestMultipleBelow(m: int, step: int, v: int) {
    && (exists j: int :: m == j * step)
    && m <= v
    && forall j: int :: j * step <= v ==> j * step <= m
  }

  ghost predicate LeastMultipleAbove(m: int, step: int, v: int) {
    && (exists j: int :: m == j * step)
    && m >= v
    && forall j: int :: j * step >= v ==> j * step >= m
  }

  /** The number of whole steps at or below v. */
  ghost function StepsBelow(v: Decimal, step: Decimal): int
    requires step.raw > 0
  {
    v.raw / step.raw
  }

  /** The number of whole steps at or above v. */
  ghost function StepsAbove(v: Decimal, step: Decimal): int
    requires step.raw > 0
  {
    -((0 - v.raw) / step.raw)
  }

  /**
   The gap from v to the multiple beyond the wanted one is more than half a raw unit of the
   quotient, or exactly half of it with the tie rounded the other way.
   */
  predicate ClearOf(gap: int, step: int, tieGoesBack: bool) {
    2 * SCALE * gap > step || (2 * SCALE * gap == step && tieGoesBack)
  }

  // Floor and Ceil are the mathematical ones on representable integers.

  lemma {:induction false} FloorLandsOn(q: Decimal, k: int)
    requires k * SCALE <= q.raw < (k + 1) * SCALE && FitsI128(k * SCALE)
    ensures Floor(q) == Decimal(k * SCALE)
  {
  }

  lemma {:induction false} CeilLandsOn(q: Decimal, k: int)
    requires (k - 1) * SCALE < q.raw <= k * SCALE && FitsI128(k * SCALE)
    ensures Ceil(q) == Decimal(k * SCALE)
  {
  }

  lemma {:induction false} StepsAboveBounds(v: Decimal, step: Decimal)
    requires step.raw > 0
    ensures var k := StepsAbove(v, step);
      (k - 1) * step.raw == k * step.raw - step.raw < v.raw <= k * step.raw
  {
    var k := StepsAbove(v, step);
    DivBounds(0 - v.raw, step.raw);
    assert (-k) * step.raw == -(k * step.raw);
    assert (k - 1) * step.raw == k * step.raw - step.raw;
  }

  /** A whole number of steps multiplies back without rounding. */
  lemma {:induction false} WholeTimesStep(k: int, step: Decimal)
    requires FitsI128(k * SCALE)
    ensures Mul(Decimal(k * SCALE), step).raw == ClampI128(k * step.raw)
  {
    var n := (k * SCALE) * step.raw;
    assert n == (k * step.raw) * SCALE;
    assert RoundsHalfAway(n, SCALE, k * step.raw);
    MulIsCorrectlyRounded(Decimal(k * SCALE), step);
  }

  lemma {:induction false} FloorToStepLands(v: Decimal, step: Decimal, k: int)
    requires step.raw > 0 && FitsI128(k * SCALE)
    requires k * SCALE <= ClampI128(DivQuotient(v, step)) < (k + 1) * SCALE
    ensures FloorToStep(v, step).raw == ClampI128(k * step.raw)
  {
    FloorLandsOn(Div(v, step), k);
    WholeTimesStep(k, step);
  }

  lemma {:induction false} CeilToStepLands(v: Decimal, step: Decimal, k: int)
    requires step.raw > 0 && FitsI128(k * SCALE)
    requires (k - 1) * SCALE < ClampI128(DivQuotient(v, step)) <= k * SCALE
    ensures CeilToStep(v, step).raw == ClampI128(k * step.raw)
  {
    CeilLandsOn(Div(v, step), k);
    WholeTimesStep(k, step);
  }

  /** A dividend that is an exact multiple of the step has that multiple as its quotient. */
  lemma {:induction false} ExactQuotient(k: int, step: int)
    requires step > 0
    ensures RoundsHalfAway(k * step * SCALE, step, k * SCALE)
  {
    assert k * step * SCALE == (k * SCALE) * step;
  }

  /** Where the rounded quotient falls, relative to the multiples k and k+1 around v. */
  lemma {:induction false} QuotientBetween(v: Decimal, step: Decimal, k: int)
    requires step.raw > 0 && k * step.raw <= v.raw <= (k + 1) * step.raw
    ensures k * SCALE <= DivQuotient(v, step) <= (k + 1) * SCALE
  {
    var n := v.raw * SCALE;
    DivIsCorrectlyRounded(v, step);
    ExactQuotient(k, step.raw);
    ExactQuotient(k + 1, step.raw);
    RoundingIsMonotone(k * step.raw * SCALE, n, step.raw, k * SCALE, DivQuotient(v, step));
    RoundingIsMonotone(n, (k + 1) * step.raw * SCALE, step.raw, DivQuotient(v, step), (k + 1) * SCALE);
  }

  /** The quotient is rounded onto k*10^18 exactly when v is not clear of the multiple k. */
  lemma {:induction false} QuotientSnaps(v: Decimal, step: Decimal, k: int)
    requires step.raw > 0
    ensures DivQuotient(v, step) == k * SCALE <==>
            !ClearOf(Abs(v.raw - k * step.raw), step.raw, Abs(k * step.raw) <= Abs(v.raw))
  {
    var n, d, x := v.raw * SCALE, step.raw, k * step.raw;
    DivIsCorrectlyRounded(v, step);
    assert (k * SCALE) * d == x * SCALE;
    assert Nearest(n, d, x * SCALE) <==> !ClearOf(Abs(v.raw - x), d, Abs(x) <= Abs(v.raw)) by {
      assert n - x * SCALE == (v.raw - x) * SCALE;
    }
    assert RoundsHalfAway(n, d, k * SCALE) == Nearest(n, d, x * SCALE);
    if RoundsHalfAway(n, d, k * SCALE) {
      RoundingIsMonotone(n, n, d, k * SCALE, DivQuotient(v, step));
      RoundingIsMonotone(n, n, d, DivQuotient(v, step), k * SCALE);
    }
  }

  /** The first multiple above v is nearer to zero than v exactly when v is negative. */
  lemma {:induction false} TieSide(v: int, j: int, step: int)
    requires step > 0 && (j - 1) * step <= v < j * step
    ensures Abs(v - j * step) == j * step - v
    ensures Abs(j * step) <= Abs(v) <==> v < 0
  {
    MultiplesAreApart(j, 0, step);
    MultiplesAreApart(0, j, step);
  }

  lemma {:induction false} TieSideBelow(v: int, j: int, step: int)
    requires step > 0 && j * step < v <= (j + 1) * step
    ensures Abs(v - j * step) == v - j * step
    ensures Abs(j * step) <= Abs(v) <==> v > 0
  {
    MultiplesAreApart(j, 0, step);
    MultiplesAreApart(0, j, step);
  }

  lemma {:induction false} FloorInRange(v: Decimal, step: Decimal)
    requires step.raw > 0
    requires var k := StepsBelow(v, step); FitsI128(k * SCALE) && FitsI128(k * step.raw)
    ensures var k := StepsBelow(v, step);
      (FloorToStep(v, step).raw == k * step.raw) <==>
      (ClearOf((k + 1) * step.raw - v.raw, step.raw, v.raw < 0) || (k + 1) * SCALE > I128_MAX)
  {
    hide Div, DivQuotient, FloorToStep, RoundsHalfAway;
    var k := StepsBelow(v, step);
    var q := DivQuotient(v, step);
    DivBounds(v.raw, step.raw);
    assert (k + 1) * step.raw == k * step.raw + step.raw;
    QuotientBetween(v, step, k);
    QuotientSnaps(v, step, k + 1);
    TieSide(v.raw, k + 1, step.raw);
    if q < (k + 1) * SCALE || (k + 1) * SCALE > I128_MAX {
      FloorToStepLands(v, step, k);
    } else {
      FloorToStepLands(v, step, k + 1);
    }
  }

  lemma {:induction false} CeilInRange(v: Decimal, step: Decimal)
    requires step.raw > 0
    requires var k := StepsAbove(v, step); FitsI128(k * SCALE) && FitsI128(k * step.raw)
    ensures var k := StepsAbove(v, step);
      (CeilToStep(v, step).raw == k * step.raw) <==>
      (ClearOf(v.raw - (k - 1) * step.raw, step.raw, v.raw > 0) || (k - 1) * SCALE < I128_MIN)
  {
    hide Div, DivQuotient, CeilToStep, RoundsHalfAway;
    var k := StepsAbove(v, step);
    var q := DivQuotient(v, step);
    StepsAboveBounds(v, step);
    QuotientBetween(v, step, k - 1);
    QuotientSnaps(v, step, k - 1);
    TieSideBelow(v.raw, k - 1, step.raw);
    if q > (k - 1) * SCALE || (k - 1) * SCALE < I128_MIN {
      CeilToStepLands(v, step, k);
    } else {
      CeilToStepLands(v, step, k - 1);
    }
  }

  // Quotients that saturate: the ends of the range are not whole numbers.

  lemma {:induction false} EndsOfRange()
    ensures Floor(Decimal(I128_MAX)) == Decimal(WIDEST * SCALE) && Ceil(Decimal(I128_MIN)) == Decimal(-WIDEST * SCALE)
    ensures Floor(Decimal(I128_MIN)) == Decimal(I128_MIN) && Ceil(Decimal(I128_MAX)) == Decimal(I128_MAX)
  {
  }

  /** The low end of the range times a step rounds onto WIDEST + 1 steps down only for the smallest step. */
  lemma {:induction false} LowEndTimesStep(step: Decimal, k: int)
    requires step.raw > 0 && k <= -WIDEST - 1
    ensures Mul(Decimal(I128_MIN), step).raw == k * step.raw <==> step.raw == 1 && k == -WIDEST - 1
  {
    var s := step.raw;
    MulIsCorrectlyRounded(Decimal(I128_MIN), step);
    var q := MulQuotient(Decimal(I128_MIN), step);
    MulLe(k, -WIDEST - 1, s);
    assert (-WIDEST - 1) * s == -WIDEST * s - s;
    var rest := -I128_MIN - WIDEST * SCALE;
    assert I128_MIN * s == -(WIDEST * s) * SCALE - rest * s;
    if s == 1 {
      assert q == -WIDEST - 1;
      MulLe(k, -WIDEST - 1, 1);
    } else {
      LowEndIsFar(s, q, rest);
    }
  }

  lemma {:induction false} LowEndIsFar(s: int, q: int, rest: int)
    requires s >= 2 && rest == -I128_MIN - WIDEST * SCALE
    requires Nearest(-(WIDEST * s) * SCALE - rest * s, SCALE, q * SCALE)
    ensures q > -(WIDEST * s) - s
  {
    var m := q + WIDEST * s;
    assert q * SCALE == m * SCALE - (WIDEST * s) * SCALE;
    assert 2 * Abs(rest * s + m * SCALE) <= SCALE;
    MulLe(2, s, SCALE - rest);
    assert (SCALE - rest) * s == s * SCALE - rest * s;
    if m <= -s { MulLe(m, -s, SCALE); }
  }

  /** A saturated quotient is floored away from the wanted multiple, except WIDEST + 1 of the smallest step down. */
  lemma {:induction false} FloorOutOfRange(v: Decimal, step: Decimal)
    requires step.raw > 0 && !FitsI128(StepsBelow(v, step) * SCALE)
    ensures var k := StepsBelow(v, step);
      FloorToStep(v, step).raw == k * step.raw <==> step.raw == 1 && k == -WIDEST - 1
  {
    hide Div, DivQuotient, RoundsHalfAway, Floor, Mul;
    var k := StepsBelow(v, step);
    var q := DivQuotient(v, step);
    DivBounds(v.raw, step.raw);
    assert (k + 1) * step.raw == k * step.raw + step.raw;
    QuotientBetween(v, step, k);
    EndsOfRange();
    DivIsClamped(v, step);
    if k > WIDEST {
      MulLt(WIDEST, k, step.raw);
      WholeTimesStep(WIDEST, step);
    } else {
      LowEndTimesStep(step, k);
      if k == -WIDEST - 1 && q > I128_MIN {
        if q < -WIDEST * SCALE { FloorNearLowEnd(Div(v, step)); }
        else {
          FloorLandsOn(Div(v, step), -WIDEST);
          WholeTimesStep(-WIDEST, step);
          MulLt(k, -WIDEST, step.raw);
          QuotientSnaps(v, step, k);
        }
      }
    }
  }

  lemma {:induction false} DivIsClamped(v: Decimal, step: Decimal)
    requires step.raw > 0
    ensures Div(v, step).raw == ClampI128(DivQuotient(v, step))
  {
  }

  lemma {:induction false} FloorNearLowEnd(q: Decimal)
    requires q.raw < -WIDEST * SCALE
    ensures Floor(q) == Decimal(I128_MIN)
  {
  }

  /**
   `floor_to_step` is exact precisely when the wanted multiple is representable, its quotient is in range, and
   the value is clear of the next multiple above it or that one's quotient saturates; beyond the range only
   WIDEST + 1 of the smallest step down comes out right.
   */
  lemma {:induction false} FloorToStepExactIff(v: Decimal, step: Decimal)
    requires step.raw > 0
    ensures var k := StepsBelow(v, step);
      FloorToStep(v, step).raw == k * step.raw <==>
        if FitsI128(k * SCALE) then
          k * step.raw >= I128_MIN
          && (ClearOf((k + 1) * step.raw - v.raw, step.raw, v.raw < 0) || (k + 1) * SCALE > I128_MAX)
        else step.raw == 1 && k == -WIDEST - 1
  {
    hide FloorToStep;
    DivBounds(v.raw, step.raw);
    var k := StepsBelow(v, step);
    if !FitsI128(k * SCALE) { FloorOutOfRange(v, step); }
    else if k * step.raw >= I128_MIN { FloorInRange(v, step); }
  }

  lemma {:induction false} HighEndTimesStep(step: Decimal, k: int)
    requires step.raw > 0 && k >= WIDEST + 1
    ensures Mul(Decimal(I128_MAX), step).raw == k * step.raw <==> step.raw == 1 && k == WIDEST + 1
  {
    var s := step.raw;
    MulIsCorrectlyRounded(Decimal(I128_MAX), step);
    var q := MulQuotient(Decimal(I128_MAX), step);
    MulLe(WIDEST + 1, k, s);
    assert (WIDEST + 1) * s == WIDEST * s + s;
    var rest := I128_MAX - WIDEST * SCALE;
    assert I128_MAX * s == (WIDEST * s) * SCALE + rest * s;
    if s == 1 {
      assert q == WIDEST + 1;
      MulLe(WIDEST + 1, k, 1);
    } else {
      HighEndIsFar(s, q, rest);
    }
  }

  lemma {:induction false} HighEndIsFar(s: int, q: int, rest: int)
    requires s >= 2 && rest == I128_MAX - WIDEST * SCALE
    requires Nearest((WIDEST * s) * SCALE + rest * s, SCALE, q * SCALE)
    ensures q < WIDEST * s + s
  {
    var m := q - WIDEST * s;
    assert q * SCALE == m * SCALE + (WIDEST * s) * SCALE;
    assert 2 * Abs(rest * s - m * SCALE) <= SCALE;
    MulLe(2, s, SCALE - rest);
    assert (SCALE - rest) * s == s * SCALE - rest * s;
    if m >= s { MulLe(s, m, SCALE); }
  }

  lemma {:induction false} CeilOutOfRange(v: Decimal, step: Decimal)
    requires step.raw > 0 && !FitsI128(StepsAbove(v, step) * SCALE)
    ensures var k := StepsAbove(v, step);
      CeilToStep(v, step).raw == k * step.raw <==> step.raw == 1 && k == WIDEST + 1
  {
    hide Div, DivQuotient, RoundsHalfAway, Ceil, Mul;
    var k := StepsAbove(v, step);
    var q := DivQuotient(v, step);
    StepsAboveBounds(v, step);
    QuotientBetween(v, step, k - 1);
    EndsOfRange();
    DivIsClamped(v, step);
    if k < -WIDEST {
      MulLt(k, -WIDEST, step.raw);
      WholeTimesStep(-WIDEST, step);
    } else {
      HighEndTimesStep(step, k);
      if k == WIDEST + 1 && q < I128_MAX {
        if q > WIDEST * SCALE { CeilNearHighEnd(Div(v, step)); }
        else {
          CeilLandsOn(Div(v, step), WIDEST);
          WholeTimesStep(WIDEST, step);
          MulLt(WIDEST, k, step.raw);
          QuotientSnaps(v, step, k);
        }
      }
    }
  }

  lemma {:induction false} CeilNearHighEnd(q: Decimal)
    requires q.raw > WIDEST * SCALE
    ensures Ceil(q) == Decimal(I128_MAX)
  {
  }

  /** The mirror condition for `ceil_to_step`. */
  lemma {:induction false} CeilToStepExactIff(v: Decimal, step: Decimal)
    requires step.raw > 0
    ensures var k := StepsAbove(v, step);
      CeilToStep(v, step).raw == k * step.raw <==>
        if FitsI128(k * SCALE) then
          k * step.raw <= I128_MAX
          && (ClearOf(v.raw - (k - 1) * step.raw, step.raw, v.raw > 0) || (k - 1) * SCALE < I128_MIN)
        else step.raw == 1 && k == WIDEST + 1
  {
    hide CeilToStep;
    StepsAboveBounds(v, step);
    var k := StepsAbove(v, step);
    if !FitsI128(k * SCALE) { CeilOutOfRange(v, step); }
    else if k * step.raw <= I128_MAX { CeilInRange(v, step); }
  }

  /** A multiple of a positive step is the greatest below the value exactly when it is the quotient's. */
  lemma {:induction false} GreatestIsQuotient(m: int, v: Decimal, step: Decimal)
    requires step.raw > 0
    ensures GreatestMultipleBelow(m, step.raw, v.raw) <==> m == StepsBelow(v, step) * step.raw
  {
    var k := StepsBelow(v, step);
    DivBounds(v.raw, step.raw);
    forall j: int | j * step.raw <= v.raw ensures j * step.raw <= k * step.raw {
      MultiplesAreApart(j, k, step.raw);
    }
  }

  lemma {:induction false} LeastIsQuotient(m: int, v: Decimal, step: Decimal)
    requires step.raw > 0
    ensures LeastMultipleAbove(m, step.raw, v.raw) <==> m == StepsAbove(v, step) * step.raw
  {
    var k := StepsAbove(v, step);
    StepsAboveBounds(v, step);
    forall j: int | j * step.raw >= v.raw ensures j * step.raw >= k * step.raw {
      MultiplesAreApart(k, j, step.raw);
    }
  }

  /**
   For every step below 2, `floor_to_step` is the greatest multiple of the step at or below the value if and only
   if that multiple and its quotient are in range, or it is WIDEST + 1 of the smallest step down.
   */
  lemma {:induction false} FloorToStepIsExact(v: Decimal, step: Decimal)
    requires 0 < step.raw < 2 * SCALE
    ensures var k := StepsBelow(v, step);
      GreatestMultipleBelow(FloorToStep(v, step).raw, step.raw, v.raw) <==>
        (FitsI128(k * SCALE) && k * step.raw >= I128_MIN) || (step.raw == 1 && k == -WIDEST - 1)
  {
    hide FloorToStep, GreatestMultipleBelow;
    var k := StepsBelow(v, step);
    DivBounds(v.raw, step.raw);
    assert (k + 1) * step.raw == k * step.raw + step.raw;
    FloorToStepExactIff(v, step);
    GreatestIsQuotient(FloorToStep(v, step).raw, v, step);
  }

  lemma {:induction false} CeilToStepIsExact(v: Decimal, step: Decimal)
    requires 0 < step.raw < 2 * SCALE
    ensures var k := StepsAbove(v, step);
      LeastMultipleAbove(CeilToStep(v, step).raw, step.raw, v.raw) <==>
        (FitsI128(k * SCALE) && k * step.raw <= I128_MAX) || (step.raw == 1 && k == WIDEST + 1)
  {
    hide CeilToStep, LeastMultipleAbove;
    var k := StepsAbove(v, step);
    StepsAboveBounds(v, step);
    CeilToStepExactIff(v, step);
    LeastIsQuotient(CeilToStep(v, step).raw, v, step);
  }

  /** The bound on the step is sharp: one raw unit below a step of 2, flooring goes up. */
  lemma {:induction false} FloorToStepGoesUpAtTwo()
    ensures var step := Decimal(2 * SCALE); var v := Decimal(2 * SCALE - 1);
      FloorToStep(v, step).raw == step.raw > v.raw
  {
    var step, v := Decimal(2 * SCALE), Decimal(2 * SCALE - 1);
    QuotientSnaps(v, step, 1);
    FloorLandsOn(Div(v, step), 1);
    WholeTimesStep(1, step);
  }
}
