/**
 The notional that a partly filled reservation keeps: it goes down in proportion to the size, so the unit price at
 which the next admission values the reservation stays what it was, up to rounding.
 */
module ReservationNotional {
  import opened Arith
  import opened DecimalCore
  import opened RiskAdmission
  import opened OrderLedger
  import opened ReservationConservation
  import opened ReservationConvergence

  /** after keeps the share left / whole of before, within half a unit and half a unit of the rounded share. */
  ghost predicate Proportional(before: int, whole: int, after: int, left: int) {
    2 * SCALE * Abs(after * whole - before * left) <= whole * (before + SCALE)
  }

  lemma {:induction false} RatioIsAtMostOne(left: Decimal, whole: Decimal)
    requires 0 <= left.raw <= whole.raw && whole.raw > 0
    ensures 0 <= Div(left, whole).raw <= SCALE && FitsI128(DivQuotient(left, whole))
  {
    hide Div;
    HalfUpDivision(left.raw * SCALE, whole.raw);
    MulLe(left.raw, whole.raw, SCALE);
    RatioRounds(left.raw, whole.raw, DivQuotient(left, whole));
    DivIsCorrectlyRounded(left, whole);
  }

  lemma {:induction false} RatioRounds(left: int, whole: int, q: int)
    requires 0 <= left <= whole && whole > 0 && q == (left * SCALE + whole / 2) / whole
    ensures 0 <= q <= SCALE
  {
    HalfUpDivision(left * SCALE, whole);
    MulLe(left, whole, SCALE);
    assert SCALE * whole == whole * SCALE;
    assert RoundsHalfAway(whole * SCALE, whole, SCALE);
    RoundingIsMonotone(left * SCALE, whole * SCALE, whole, q, SCALE);
  }

  /** Multiplying by a ratio of at most one stays in range. */
  lemma {:induction false} ShareFits(n: Decimal, ratio: Decimal)
    requires n.raw >= 0 && 0 <= ratio.raw <= SCALE
    ensures FitsI128(MulQuotient(n, ratio))
  {
    hide MulQuotient;
    MulIsCorrectlyRounded(n, ratio);
    MulLe(ratio.raw, SCALE, n.raw);
    MulLe(0, ratio.raw, n.raw);
    assert RoundsHalfAway(n.raw * SCALE, SCALE, n.raw) && RoundsHalfAway(0, SCALE, 0);
    RoundingIsMonotone(n.raw * ratio.raw, n.raw * SCALE, SCALE, MulQuotient(n, ratio), n.raw);
    RoundingIsMonotone(0, n.raw * ratio.raw, SCALE, 0, MulQuotient(n, ratio));
  }

  lemma {:induction false} ErrorsScale(n: int, whole: int, ratio: int, left: int, after: int)
    requires n >= 0 && whole > 0
    requires 2 * Abs(left * SCALE - ratio * whole) <= whole && 2 * Abs(n * ratio - after * SCALE) <= SCALE
    ensures Proportional(n, whole, after, left)
  {
    var a, b := after * SCALE - n * ratio, ratio * whole - left * SCALE;
    ScaledDifference(n, whole, ratio, left, after);
    BoundTimes(a, SCALE, whole);
    BoundTimes(b, whole, n);
    SumOfErrors(a * whole, b * n, after * whole - n * left, SCALE * whole, whole * n);
    assert whole * (n + SCALE) == whole * n + SCALE * whole;
  }

  lemma {:induction false} ScaledDifference(n: int, whole: int, ratio: int, left: int, after: int)
    ensures SCALE * (after * whole - n * left) == (after * SCALE - n * ratio) * whole + (ratio * whole - left * SCALE) * n
  {
    assert (after * SCALE - n * ratio) * whole == SCALE * (after * whole) - n * ratio * whole;
    assert (ratio * whole - left * SCALE) * n == n * ratio * whole - SCALE * (n * left);
  }

  lemma {:induction false} BoundTimes(x: int, b: int, c: int)
    requires 2 * Abs(x) <= b && c >= 0
    ensures 2 * Abs(x * c) <= b * c
  {
    AbsProduct(x, c);
    MulLe(2 * Abs(x), b, c);
    assert (2 * Abs(x)) * c == 2 * (Abs(x) * c);
  }

  lemma {:induction false} SumOfErrors(a: int, b: int, d: int, p: int, q: int)
    requires SCALE * d == a + b && 2 * Abs(a) <= p && 2 * Abs(b) <= q
    ensures 2 * SCALE * Abs(d) <= p + q
  {
  }

  lemma {:induction false} ConsumedIsProportional(r: Reservation, size: Decimal, s: OrderStatus)
    requires r.size.raw > 0 && r.notional.raw >= 0 && size.raw > 0
    ensures var r' := ConsumedReservation(r, size, s);
      && r'.size.raw == Max(r.size.raw - size.raw, 0)
      && Proportional(r.notional.raw, r.size.raw, r'.notional.raw, r'.size.raw)
  {
    hide Div, Mul, DivQuotient, MulQuotient, Proportional;
    ConsumeColumns(r, size, s);
    var left := MaxD(Sub(r.size, size), ZERO);
    RatioIsAtMostOne(left, r.size);
    ShareFits(r.notional, Div(left, r.size));
    DivQuotientError(left, r.size);
    MulQuotientError(r.notional, Div(left, r.size));
    ErrorsScale(r.notional.raw, r.size.raw, Div(left, r.size).raw, left.raw, Mul(r.notional, Div(left, r.size)).raw);
  }

  /** An ingested fill of an order with an active reservation keeps the reservation's unit price, up to rounding. */
  lemma {:induction false} FillKeepsUnitPrice(t: Tables, f: Fill)
    requires IngestFill(t, f).1 == Done && FindOrCreate(t.orders, f.target).Some?
    requires var i := FindOrCreate(t.orders, f.target).value.1;
      && FindReservation(t.reservations, i).Some?
      && var r := ReservationOf(t, i); r.status == Active && r.size.raw > 0 && r.notional.raw >= 0
    ensures var i, u := FindOrCreate(t.orders, f.target).value.1, IngestFill(t, f).0;
      && FindReservation(u.reservations, i) == FindReservation(t.reservations, i)
      && FindReservation(u.reservations, i).value < |u.reservations|
      && var r, r' := ReservationOf(t, i), ReservationOf(u, i);
         && r'.size.raw == Max(r.size.raw - f.size.raw, 0)
         && 2 * SCALE * Abs(r'.notional.raw * r.size.raw - r.notional.raw * r'.size.raw)
            <= r.size.raw * (r.notional.raw + SCALE)
  {
    hide FindOrCreate, FindReservation, FilledRow, UpsertPosition, ConsumedReservation, ConsumeReservation, Mul, Div;
    var i := FindOrCreate(t.orders, f.target).value.1;
    var status := IngestFill(t, f).0.orders[i].status;
    ConsumeShape(t.reservations, i, f.size, status, i);
    ConsumedIsProportional(ReservationOf(t, i), f.size, status);
  }

  /** Size 10 at a notional of 1000: a fill of 9 leaves size 1 at a notional of 100. */
  lemma {:induction false} NineOfTenFilled()
    ensures var r := Reservation(0, "S", Buy, false, Decimal(10 * SCALE), Decimal(1000 * SCALE), Active, 0);
      var r' := ConsumedReservation(r, Decimal(9 * SCALE), PartialFill);
      r'.size == Decimal(SCALE) && r'.notional == Decimal(100 * SCALE)
  {
  }
}
