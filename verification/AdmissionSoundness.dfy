/**
 What an admission means: whatever part of the admitted order and of every active opening
 reservation is filled, position and leverage stay within the limits that were checked.
 The saturating, rounded arithmetic of the check is related to exact integer sums.
 */
module AdmissionSoundness {
  import opened Arith
  import opened DecimalCore
  import opened Options
  import opened RiskAdmission

  /** Half of the representable range. */
  const HALF: Decimal := Decimal(0x4000_0000_0000_0000_0000_0000_0000_0000)

  /** The exact, unsaturated sum of the reserved sizes of a symbol and side. */
  ghost function ExactReserved(rows: seq<ReservationRow>, symbol: string, side: Side): int {
    if rows == [] then 0 else
    var r := rows[|rows| - 1];
    ExactReserved(rows[..|rows| - 1], symbol, side) + (if r.symbol == symbol && r.side == side then r.size.raw else 0)
  }

  /** One fill per reservation, each between nothing and the whole reserved size. */
  ghost predicate ValidFills(rows: seq<ReservationRow>, fills: seq<int>) {
    |fills| == |rows| && forall i | 0 <= i < |rows| :: 0 <= fills[i] <= rows[i].size.raw
  }

  /** The size filled on a symbol and side under a choice of fills. */
  ghost function FilledSize(rows: seq<ReservationRow>, fills: seq<int>, symbol: string, side: Side): int
    requires |fills| == |rows|
  {
    if rows == [] then 0 else
    var n := |rows| - 1;
    FilledSize(rows[..n], fills[..n], symbol, side)
      + (if rows[n].symbol == symbol && rows[n].side == side then fills[n] else 0)
  }

  /** How much of the order itself is filled on a symbol and side. */
  ghost function OwnFill(order: OrderRequest, own: int, symbol: string, side: Side): int {
    if symbol == order.symbol && side == order.side then own else 0
  }

  /** The exact position in a symbol after the chosen fills. */
  ghost function PositionAfter(
    positions: seq<PositionRow>, rows: seq<ReservationRow>, fills: seq<int>,
    order: OrderRequest, own: int, symbol: string
  ): int
    requires |fills| == |rows|
  {
    PositionSize(positions, symbol).raw
      + FilledSize(rows, fills, symbol, Buy) + OwnFill(order, own, symbol, Buy)
      - FilledSize(rows, fills, symbol, Sell) - OwnFill(order, own, symbol, Sell)
  }

  ghost function ExactWithOrder(rows: seq<ReservationRow>, order: OrderRequest, symbol: string, side: Side): int {
    ExactReserved(rows, symbol, side)
      + (if symbol == order.symbol && side == order.side && !order.reduceOnly then order.size.raw else 0)
  }

  /** The exact position when everything on one side is filled and nothing on the other. */
  ghost function EndPoint(
    positions: seq<PositionRow>, rows: seq<ReservationRow>, order: OrderRequest, symbol: string, side: Side): int
  {
    if side == Buy then PositionSize(positions, symbol).raw + ExactWithOrder(rows, order, symbol, Buy)
    else PositionSize(positions, symbol).raw - ExactWithOrder(rows, order, symbol, Sell)
  }

  /** None of the additions behind a symbol's worst case saturates. */
  ghost predicate NoClamp(
    positions: seq<PositionRow>, rows: seq<ReservationRow>, order: OrderRequest, symbol: string)
  {
    && ExactWithOrder(rows, order, symbol, Buy) <= I128_MAX && ExactWithOrder(rows, order, symbol, Sell) <= I128_MAX
    && Abs(EndPoint(positions, rows, order, symbol, Buy)) <= I128_MAX
    && Abs(EndPoint(positions, rows, order, symbol, Sell)) <= I128_MAX
  }

  // ------------------------------------------------------- saturated sums

  lemma {:induction false} ReservedIsSaturatedSum(rows: seq<ReservationRow>, symbol: string, side: Side)
    requires ValidRows(rows)
    ensures 0 <= ExactReserved(rows, symbol, side)
    ensures Reserved(rows, symbol, side).raw == Min(ExactReserved(rows, symbol, side), I128_MAX)
  {
    if rows != [] {
      ReservedIsSaturatedSum(rows[..|rows| - 1], symbol, side);
    }
  }

  lemma {:induction false} WithOrderIsSaturatedSum(rows: seq<ReservationRow>, order: OrderRequest, symbol: string, side: Side)
    requires ValidRows(rows) && order.size.raw >= 0
    ensures 0 <= ExactWithOrder(rows, order, symbol, side)
    ensures WithOrder(rows, order, symbol, side).raw == Min(ExactWithOrder(rows, order, symbol, side), I128_MAX)
  {
    ReservedIsSaturatedSum(rows, symbol, side);
  }

  lemma {:induction false} FilledIsBounded(rows: seq<ReservationRow>, fills: seq<int>, symbol: string, side: Side)
    requires ValidFills(rows, fills)
    ensures 0 <= FilledSize(rows, fills, symbol, side) <= ExactReserved(rows, symbol, side)
  {
    if rows != [] {
      FilledIsBounded(rows[..|rows| - 1], fills[..|rows| - 1], symbol, side);
    }
  }

  lemma {:induction false} OutcomeBetweenEnds(
    positions: seq<PositionRow>, rows: seq<ReservationRow>, fills: seq<int>,
    order: OrderRequest, own: int, symbol: string)
    requires ValidFills(rows, fills) && 0 <= own <= order.size.raw && !order.reduceOnly
    ensures EndPoint(positions, rows, order, symbol, Sell)
            <= PositionAfter(positions, rows, fills, order, own, symbol)
            <= EndPoint(positions, rows, order, symbol, Buy)
  {
    FilledIsBounded(rows, fills, symbol, Buy);
    FilledIsBounded(rows, fills, symbol, Sell);
  }

  /** Every reservation on its symbol's chosen side filled completely, all others not at all. */
  ghost function FullOn(rows: seq<ReservationRow>, sides: string -> Side): (r: seq<int>)
    ensures |r| == |rows|
  {
    seq(|rows|, i requires 0 <= i < |rows| => if rows[i].side == sides(rows[i].symbol) then rows[i].size.raw else 0)
  }

  ghost function FullOwn(order: OrderRequest, sides: string -> Side): int {
    if order.side == sides(order.symbol) then order.size.raw else 0
  }

  lemma {:induction false} FullOnFills(rows: seq<ReservationRow>, sides: string -> Side, s: string, side: Side)
    requires ValidRows(rows)
    ensures ValidFills(rows, FullOn(rows, sides))
    ensures FilledSize(rows, FullOn(rows, sides), s, side) == if side == sides(s) then ExactReserved(rows, s, side) else 0
  {
    if rows != [] {
      var n := |rows| - 1;
      assert FullOn(rows, sides)[..n] == FullOn(rows[..n], sides);
      FullOnFills(rows[..n], sides, s, side);
    }
  }

  /** One choice of fills reaches the chosen end of every symbol at once. */
  lemma {:induction false} EndsAreReached(
    positions: seq<PositionRow>, rows: seq<ReservationRow>, order: OrderRequest, sides: string -> Side, s: string)
    requires ValidRows(rows) && order.size.raw >= 0 && !order.reduceOnly
    ensures ValidFills(rows, FullOn(rows, sides)) && 0 <= FullOwn(order, sides) <= order.size.raw
    ensures PositionAfter(positions, rows, FullOn(rows, sides), order, FullOwn(order, sides), s)
            == EndPoint(positions, rows, order, s, sides(s))
  {
    FullOnFills(rows, sides, s, Buy);
    FullOnFills(rows, sides, s, Sell);
  }

  /** Without a clamp the worst exposure is the farther end. */
  lemma {:induction false} WorstIsFartherEnd(
    positions: seq<PositionRow>, rows: seq<ReservationRow>, order: OrderRequest, symbol: string)
    requires ValidRows(rows) && order.size.raw >= 0 && NoClamp(positions, rows, order, symbol)
    ensures WorstOf(positions, rows, order, symbol).raw == WorstEnd(positions, rows, order, symbol)
  {
    WithOrderIsSaturatedSum(rows, order, symbol, Buy);
    WithOrderIsSaturatedSum(rows, order, symbol, Sell);
  }

  ghost function WorstEnd(
    positions: seq<PositionRow>, rows: seq<ReservationRow>, order: OrderRequest, symbol: string): nat
  {
    Max(Abs(EndPoint(positions, rows, order, symbol, Buy)), Abs(EndPoint(positions, rows, order, symbol, Sell)))
  }

  /** A worst exposure below half the range was computed without a clamp. */
  lemma {:induction false} SmallWorstIsUnclamped(
    positions: seq<PositionRow>, rows: seq<ReservationRow>, order: OrderRequest, symbol: string)
    requires ValidRows(rows) && order.size.raw >= 0 && WorstOf(positions, rows, order, symbol).raw < HALF.raw
    ensures NoClamp(positions, rows, order, symbol)
  {
    hide WithOrder, ExactWithOrder, PositionSize, WorstExposure;
    WithOrderIsSaturatedSum(rows, order, symbol, Buy);
    WithOrderIsSaturatedSum(rows, order, symbol, Sell);
    WorstExposureBounds(
      PositionSize(positions, symbol),
      WithOrder(rows, order, symbol, Buy), WithOrder(rows, order, symbol, Sell),
      ExactWithOrder(rows, order, symbol, Buy), ExactWithOrder(rows, order, symbol, Sell));
  }

  lemma {:induction false} WorstExposureBounds(p: Decimal, buys: Decimal, sells: Decimal, exactBuys: int, exactSells: int)
    requires 0 <= exactBuys && 0 <= exactSells
    requires buys.raw == Min(exactBuys, I128_MAX) && sells.raw == Min(exactSells, I128_MAX)
    requires WorstExposure(p, buys, sells).raw < HALF.raw
    ensures exactBuys <= I128_MAX && exactSells <= I128_MAX
    ensures Abs(p.raw + exactBuys) <= I128_MAX && Abs(p.raw - exactSells) <= I128_MAX
  {
  }

  // -------------------------------------------------------- position limit

  /** A size that fits 128 bits and whose value at the price is within the limit. */
  ghost predicate SizeWithin(size: int, price: Decimal, limit: Decimal) {
    FitsI128(Abs(size)) && Mul(Decimal(Abs(size)), price).raw <= limit.raw
  }

  lemma {:induction false} BetweenIsWithin(low: int, x: int, high: int, price: Decimal, limit: Decimal)
    requires price.raw >= 0 && low <= x <= high && SizeWithin(low, price, limit) && SizeWithin(high, price, limit)
    ensures SizeWithin(x, price, limit)
  {
    MulIsMonotone(Decimal(Abs(x)), Decimal(if Abs(low) > Abs(high) then Abs(low) else Abs(high)), price);
  }

  /** Every choice of partial fills of the order and of the opening reservations stays within the limit. */
  ghost predicate OutcomesWithin(
    positions: seq<PositionRow>, rows: seq<ReservationRow>, order: OrderRequest, price: Decimal, limit: Decimal)
  {
    forall fills, own | ValidFills(rows, fills) && 0 <= own <= order.size.raw ::
      SizeWithin(PositionAfter(positions, rows, fills, order, own, order.symbol), price, limit)
  }

  /** What has to be compared with the limit: no more and no less than the two exact ends. */
  lemma {:induction false} OutcomesWithinIff(
    positions: seq<PositionRow>, rows: seq<ReservationRow>, order: OrderRequest, price: Decimal, limit: Decimal)
    requires ValidRows(rows) && order.size.raw >= 0 && !order.reduceOnly && price.raw >= 0
    ensures OutcomesWithin(positions, rows, order, price, limit) <==>
      && SizeWithin(EndPoint(positions, rows, order, order.symbol, Buy), price, limit)
      && SizeWithin(EndPoint(positions, rows, order, order.symbol, Sell), price, limit)
  {
    hide SizeWithin, PositionAfter, EndPoint, ValidRows, ValidFills, FullOn, FullOwn;
    var s := order.symbol;
    EndsAreReached(positions, rows, order, _ => Buy, s);
    EndsAreReached(positions, rows, order, _ => Sell, s);
    var low, high := EndPoint(positions, rows, order, s, Sell), EndPoint(positions, rows, order, s, Buy);
    if SizeWithin(low, price, limit) && SizeWithin(high, price, limit) {
      forall fills, own | ValidFills(rows, fills) && 0 <= own <= order.size.raw
        ensures |fills| == |rows|
        ensures SizeWithin(PositionAfter(positions, rows, fills, order, own, s), price, limit)
      {
        ValidFillsLength(rows, fills);
        OutcomeBetweenEnds(positions, rows, fills, order, own, s);
        BetweenIsWithin(low, PositionAfter(positions, rows, fills, order, own, s), high, price, limit);
      }
    }
  }

  lemma {:induction false} ValidFillsLength(rows: seq<ReservationRow>, fills: seq<int>)
    requires ValidFills(rows, fills)
    ensures |fills| == |rows|
  {
  }

  /** What an admission of an opening perp order has compared. */
  lemma {:induction false} PassedMeans(
    account: Account, positions: seq<PositionRow>, active: seq<ReservationRow>,
    order: OrderRequest, supplied: Option<Decimal>, limits: Limits)
    requires !order.isSpot && !order.reduceOnly
    requires CheckRiskScope(Some(account), positions, active, order, supplied, limits) == Passed
    ensures var rows, reference := Opening(active), ReferencePrice(order, positions, supplied);
      var notional := ResultingNotional(positions, rows, order, reference, ExposureSymbols(positions, rows, order));
      && reference.raw > 0 && account.equity.raw > 0
      && Mul(WorstOf(positions, rows, order, order.symbol), reference).raw <= PositionLimit(account.equity, limits).raw
      && notional.Some? && Div(notional.value, account.equity).raw <= LeverageLimit(limits).raw
  {
    hide Mul, Div, ResultingNotional, ExposureSymbols, Opening, WithOrder, FindPosition, ReferencePrice;
    var rows, reference := Opening(active), ReferencePrice(order, positions, supplied);
    var worst := WorstSymbolSize(
      PositionSize(positions, order.symbol),
      WithOrder(rows, order, order.symbol, Buy), WithOrder(rows, order, order.symbol, Sell));
    MulIsMonotone(WorstOf(positions, rows, order, order.symbol), worst, reference);
  }

  /**
   Admission is sound for the position limit: if a perp order that may open exposure passes and none of the
   sums saturates, every choice of fills keeps the size, valued at the reference price, within the limit.
   */
  lemma {:induction false} AdmittedPositionIsWithinLimit(
    account: Account, positions: seq<PositionRow>, active: seq<ReservationRow>,
    order: OrderRequest, supplied: Option<Decimal>, limits: Limits)
    requires ValidRows(active) && !order.isSpot && !order.reduceOnly && order.size.raw >= 0
    requires CheckRiskScope(Some(account), positions, active, order, supplied, limits) == Passed
    requires NoClamp(positions, Opening(active), order, order.symbol)
    ensures OutcomesWithin(positions, Opening(active), order,
                           ReferencePrice(order, positions, supplied), PositionLimit(account.equity, limits))
  {
    AdmittedEndIsWithin(account, positions, active, order, supplied, limits, Buy);
    AdmittedEndIsWithin(account, positions, active, order, supplied, limits, Sell);
    PassedMeans(account, positions, active, order, supplied, limits);
    hide CheckRiskScope, OutcomesWithin, SizeWithin, PositionLimit, EndPoint;
    OutcomesWithinIff(positions, Opening(active), order, ReferencePrice(order, positions, supplied),
                      PositionLimit(account.equity, limits));
  }

  lemma {:induction false} AdmittedEndIsWithin(
    account: Account, positions: seq<PositionRow>, active: seq<ReservationRow>,
    order: OrderRequest, supplied: Option<Decimal>, limits: Limits, side: Side)
    requires ValidRows(active) && !order.isSpot && !order.reduceOnly && order.size.raw >= 0
    requires CheckRiskScope(Some(account), positions, active, order, supplied, limits) == Passed
    requires NoClamp(positions, Opening(active), order, order.symbol)
    ensures SizeWithin(EndPoint(positions, Opening(active), order, order.symbol, side),
                       ReferencePrice(order, positions, supplied), PositionLimit(account.equity, limits))
  {
    hide CheckRiskScope, Mul, Opening, ReferencePrice;
    var rows, reference := Opening(active), ReferencePrice(order, positions, supplied);
    assert ValidRows(rows);
    PassedMeans(account, positions, active, order, supplied, limits);
    WorstIsFartherEnd(positions, rows, order, order.symbol);
    var end := EndPoint(positions, rows, order, order.symbol, side);
    MulIsMonotone(Decimal(Abs(end)), WorstOf(positions, rows, order, order.symbol), reference);
  }

  /** The position limit caps sizes below half the representable range: a condition on configuration and price only. */
  ghost predicate LimitBites(equity: Decimal, limits: Limits, reference: Decimal) {
    Mul(HALF, reference).raw > PositionLimit(equity, limits).raw
  }

  /** A product below the product with HALF comes from a factor below HALF. */
  lemma {:induction false} BelowHalf(x: Decimal, price: Decimal)
    requires price.raw >= 0 && Mul(x, price).raw < Mul(HALF, price).raw
    ensures x.raw < HALF.raw
  {
    if x.raw >= HALF.raw { MulIsMonotone(HALF, x, price); }
  }

  /** Under such a limit whatever passes was computed without a clamp. */
  lemma {:induction false} BitingLimitNeverClamps(
    account: Account, positions: seq<PositionRow>, active: seq<ReservationRow>,
    order: OrderRequest, supplied: Option<Decimal>, limits: Limits)
    requires ValidRows(active) && !order.isSpot && !order.reduceOnly && order.size.raw >= 0
    requires CheckRiskScope(Some(account), positions, active, order, supplied, limits) == Passed
    requires LimitBites(account.equity, limits, ReferencePrice(order, positions, supplied))
    ensures NoClamp(positions, Opening(active), order, order.symbol)
  {
    hide CheckRiskScope, Mul, Opening, ReferencePrice, NoClamp;
    assert ValidRows(Opening(active));
    PassedMeans(account, positions, active, order, supplied, limits);
    BelowHalf(WorstOf(positions, Opening(active), order, order.symbol), ReferencePrice(order, positions, supplied));
    SmallWorstIsUnclamped(positions, Opening(active), order, order.symbol);
  }

  // -------------------------------------------------------- leverage limit

  /** size times price, rounded half away from zero, without a bound on the result. */
  ghost function Value(size: nat, price: Decimal): int {
    var prod := size * price.raw;
    TruncDiv(prod + (if prod < 0 then -(SCALE / 2) else SCALE / 2), SCALE)
  }

  lemma {:induction false} ValueIsMonotone(a: nat, b: nat, price: Decimal)
    requires a <= b && (price.raw >= 0 || b == 0)
    ensures 0 <= Value(a, price) <= Value(b, price)
  {
    if price.raw >= 0 {
      MulLe(a, b, price.raw);
      MulLe(0, a, price.raw);
      HalfUpDivision(a * price.raw, SCALE);
      HalfUpDivision(b * price.raw, SCALE);
      RoundingIsMonotone(a * price.raw, b * price.raw, SCALE, Value(a, price), Value(b, price));
    } else {
      assert 0 * price.raw == 0;
      DivIs(SCALE / 2, SCALE, 0);
    }
  }

  lemma {:induction false} MulIsClampedValue(a: Decimal, price: Decimal)
    requires a.raw >= 0
    ensures Mul(a, price).raw == ClampI128(Value(a.raw, price))
  {
  }

  /** The notional of the chosen outcome, every symbol at the price the check used. */
  ghost function OutcomeNotional(
    positions: seq<PositionRow>, rows: seq<ReservationRow>, fills: seq<int>,
    order: OrderRequest, own: int, reference: Decimal, symbols: seq<string>
  ): int
    requires |fills| == |rows|
  {
    if symbols == [] then 0 else
    var s := symbols[|symbols| - 1];
    OutcomeNotional(positions, rows, fills, order, own, reference, symbols[..|symbols| - 1])
      + Value(Abs(PositionAfter(positions, rows, fills, order, own, s)),
              ExposurePrice(positions, rows, order, reference, s))
  }

  /** The notional with every symbol at its farther exact end. */
  ghost function WorstNotional(
    positions: seq<PositionRow>, rows: seq<ReservationRow>, order: OrderRequest, reference: Decimal,
    symbols: seq<string>): int
  {
    if symbols == [] then 0 else
    var s := symbols[|symbols| - 1];
    WorstNotional(positions, rows, order, reference, symbols[..|symbols| - 1])
      + Value(WorstEnd(positions, rows, order, s), ExposurePrice(positions, rows, order, reference, s))
  }

  /** Below max_leverage * equity plus equity / (2 * 10^18), the slack of the rounded division. */
  ghost predicate WithinLeverage(total: int, equity: Decimal, limits: Limits) {
    2 * SCALE * total < 2 * SCALE * (limits.maxLeverage * equity.raw) + equity.raw
  }

  ghost predicate NotionalsWithin(
    positions: seq<PositionRow>, rows: seq<ReservationRow>, order: OrderRequest, reference: Decimal,
    equity: Decimal, limits: Limits)
  {
    forall fills, own | ValidFills(rows, fills) && 0 <= own <= order.size.raw ::
      WithinLeverage(
        OutcomeNotional(positions, rows, fills, order, own, reference, ExposureSymbols(positions, rows, order)),
        equity, limits)
  }

  /** A positive price, or nothing exposed at all. */
  ghost predicate PricedOrFlat(
    positions: seq<PositionRow>, rows: seq<ReservationRow>, order: OrderRequest, reference: Decimal, s: string)
  {
    ExposurePrice(positions, rows, order, reference, s).raw > 0 || WorstEnd(positions, rows, order, s) == 0
  }

  lemma {:induction false} FlatEnds(
    positions: seq<PositionRow>, rows: seq<ReservationRow>, order: OrderRequest, s: string)
    requires ValidRows(rows) && order.size.raw >= 0 && WorstOf(positions, rows, order, s).raw <= 0
    ensures WorstEnd(positions, rows, order, s) == 0 && WorstOf(positions, rows, order, s).raw == 0
  {
    hide WithOrder, ExactWithOrder, PositionSize;
    WithOrderIsSaturatedSum(rows, order, s, Buy);
    WithOrderIsSaturatedSum(rows, order, s, Sell);
  }

  /** A notional was found only if every exposed symbol has a price. */
  lemma {:induction false} FoundNotionalIsPriced(
    positions: seq<PositionRow>, rows: seq<ReservationRow>, order: OrderRequest, reference: Decimal,
    symbols: seq<string>, i: nat)
    requires ValidRows(rows) && order.size.raw >= 0 && i < |symbols|
    requires ResultingNotional(positions, rows, order, reference, symbols).Some?
    ensures PricedOrFlat(positions, rows, order, reference, symbols[i])
  {
    hide WorstOf, WorstEnd, ExposurePrice, Mul;
    var n := |symbols| - 1;
    if i < n {
      FoundNotionalIsPriced(positions, rows, order, reference, symbols[..n], i);
    } else if ExposurePrice(positions, rows, order, reference, symbols[n]).raw <= 0 {
      FlatEnds(positions, rows, order, symbols[n]);
    }
  }

  lemma {:induction false} OutcomeAtMostWorst(
    positions: seq<PositionRow>, rows: seq<ReservationRow>, fills: seq<int>,
    order: OrderRequest, own: int, reference: Decimal, symbols: seq<string>)
    requires ValidFills(rows, fills) && 0 <= own <= order.size.raw && !order.reduceOnly
    requires forall s <- symbols :: PricedOrFlat(positions, rows, order, reference, s)
    ensures OutcomeNotional(positions, rows, fills, order, own, reference, symbols)
            <= WorstNotional(positions, rows, order, reference, symbols)
  {
    hide Value, PositionAfter, EndPoint, ExposurePrice, ValidFills;
    ValidFillsLength(rows, fills);
    if symbols != [] {
      var s := symbols[|symbols| - 1];
      OutcomeAtMostWorst(positions, rows, fills, order, own, reference, symbols[..|symbols| - 1]);
      OutcomeBetweenEnds(positions, rows, fills, order, own, s);
      assert PricedOrFlat(positions, rows, order, reference, s);
      ValueIsMonotone(Abs(PositionAfter(positions, rows, fills, order, own, s)), WorstEnd(positions, rows, order, s),
                      ExposurePrice(positions, rows, order, reference, s));
    }
  }

  /** The side on which a symbol's farther end lies. */
  ghost function WorstSides(positions: seq<PositionRow>, rows: seq<ReservationRow>, order: OrderRequest): string -> Side {
    s => if Abs(EndPoint(positions, rows, order, s, Buy)) >= Abs(EndPoint(positions, rows, order, s, Sell)) then Buy else Sell
  }

  lemma {:induction false} WorstIsReached(
    positions: seq<PositionRow>, rows: seq<ReservationRow>, order: OrderRequest, reference: Decimal,
    symbols: seq<string>)
    requires ValidRows(rows) && order.size.raw >= 0 && !order.reduceOnly
    ensures var sides := WorstSides(positions, rows, order);
      OutcomeNotional(positions, rows, FullOn(rows, sides), order, FullOwn(order, sides), reference, symbols)
      == WorstNotional(positions, rows, order, reference, symbols)
  {
    hide Value, PositionAfter, EndPoint, ExposurePrice, FullOn, FullOwn;
    if symbols != [] {
      var sides := WorstSides(positions, rows, order);
      WorstIsReached(positions, rows, order, reference, symbols[..|symbols| - 1]);
      EndsAreReached(positions, rows, order, sides, symbols[|symbols| - 1]);
    }
  }

  /** What has to be compared with the leverage limit: the notional at the farther exact ends, no more and no less. */
  lemma {:induction false} NotionalsWithinIff(
    positions: seq<PositionRow>, rows: seq<ReservationRow>, order: OrderRequest, reference: Decimal,
    equity: Decimal, limits: Limits)
    requires ValidRows(rows) && order.size.raw >= 0 && !order.reduceOnly
    requires ResultingNotional(positions, rows, order, reference, ExposureSymbols(positions, rows, order)).Some?
    ensures NotionalsWithin(positions, rows, order, reference, equity, limits) <==>
      WithinLeverage(WorstNotional(positions, rows, order, reference, ExposureSymbols(positions, rows, order)),
                     equity, limits)
  {
    hide OutcomeNotional, WorstNotional, ExposureSymbols, ValidFills, ValidRows, FullOn, FullOwn, ResultingNotional, PricedOrFlat;
    var symbols := ExposureSymbols(positions, rows, order);
    var sides := WorstSides(positions, rows, order);
    EndsAreReached(positions, rows, order, sides, order.symbol);
    WorstIsReached(positions, rows, order, reference, symbols);
    AllPricedOrFlat(positions, rows, order, reference, symbols);
    forall fills, own | ValidFills(rows, fills) && 0 <= own <= order.size.raw
      ensures |fills| == |rows|
      ensures OutcomeNotional(positions, rows, fills, order, own, reference, symbols)
              <= WorstNotional(positions, rows, order, reference, symbols)
    {
      ValidFillsLength(rows, fills);
      OutcomeAtMostWorst(positions, rows, fills, order, own, reference, symbols);
    }
  }

  lemma {:induction false} AllPricedOrFlat(
    positions: seq<PositionRow>, rows: seq<ReservationRow>, order: OrderRequest, reference: Decimal,
    symbols: seq<string>)
    requires ValidRows(rows) && order.size.raw >= 0
    requires ResultingNotional(positions, rows, order, reference, symbols).Some?
    ensures forall s <- symbols :: PricedOrFlat(positions, rows, order, reference, s)
  {
    hide ResultingNotional, PricedOrFlat;
    forall s <- symbols ensures PricedOrFlat(positions, rows, order, reference, s) {
      var i :| 0 <= i < |symbols| && symbols[i] == s;
      FoundNotionalIsPriced(positions, rows, order, reference, symbols, i);
    }
  }

  /** The notional the check computes is the exact one when no size and no sum saturates. */
  lemma {:induction false} NotionalIsExact(
    positions: seq<PositionRow>, rows: seq<ReservationRow>, order: OrderRequest, reference: Decimal,
    symbols: seq<string>)
    requires ValidRows(rows) && order.size.raw >= 0
    requires ResultingNotional(positions, rows, order, reference, symbols).Some?
    requires forall s <- symbols :: NoClamp(positions, rows, order, s)
    requires WorstNotional(positions, rows, order, reference, symbols) <= I128_MAX
    ensures 0 <= WorstNotional(positions, rows, order, reference, symbols)
    ensures ResultingNotional(positions, rows, order, reference, symbols).value.raw
            == WorstNotional(positions, rows, order, reference, symbols)
  {
    hide Value, ExposurePrice, NoClamp, WorstOf, WorstEnd, Mul;
    if symbols != [] {
      var s, front := symbols[|symbols| - 1], symbols[..|symbols| - 1];
      var worst, price := WorstOf(positions, rows, order, s), ExposurePrice(positions, rows, order, reference, s);
      FoundNotionalIsPriced(positions, rows, order, reference, symbols, |symbols| - 1);
      ValueIsMonotone(0, WorstEnd(positions, rows, order, s), price);
      assert NoClamp(positions, rows, order, s);
      WorstIsFartherEnd(positions, rows, order, s);
      MulIsClampedValue(worst, price);
      NotionalIsExact(positions, rows, order, reference, front);
    }
  }

  /** What passing the rounded leverage division says about the exact quotient. */
  lemma {:induction false} RoundedQuotientBound(n: Decimal, equity: Decimal, leverage: nat)
    requires n.raw >= 0 && equity.raw > 0 && leverage <= U32_MAX
    requires Div(n, equity).raw <= leverage * SCALE
    ensures 2 * SCALE * n.raw < 2 * SCALE * (leverage * equity.raw) + equity.raw
  {
    var q, d := DivQuotient(n, equity), equity.raw;
    QuotientIsUnclamped(n, equity, leverage);
    assert Nearest(n.raw * SCALE, d, q * d) by { DivIsCorrectlyRounded(n, equity); }
    ScaledLeverage(q, leverage, d);
    NearestFromBelow(n.raw * SCALE, d, q * d, SCALE * (leverage * d));
  }

  lemma {:induction false} QuotientIsUnclamped(n: Decimal, equity: Decimal, leverage: nat)
    requires n.raw >= 0 && equity.raw > 0 && leverage <= U32_MAX
    requires Div(n, equity).raw <= leverage * SCALE
    ensures 0 <= DivQuotient(n, equity) <= leverage * SCALE
  {
    HalfUpDivision(n.raw * SCALE, equity.raw);
  }

  lemma {:induction false} ScaledLeverage(q: int, leverage: nat, d: int)
    requires 0 <= q <= leverage * SCALE && d > 0
    ensures 0 <= q * d <= SCALE * (leverage * d)
  {
    MulLe(q, leverage * SCALE, d);
    MulLe(0, q, d);
    assert leverage * SCALE * d == SCALE * (leverage * d);
  }

  lemma {:induction false} NearestFromBelow(n: int, d: int, x: int, bound: int)
    requires d > 0 && Nearest(n, d, x) && 0 <= x <= bound && n >= 0
    ensures 2 * n < 2 * bound + d
  {
  }

  /**
   Admission is sound for the leverage limit: if a perp order that may open exposure passes and no size and
   no notional saturates, every choice of fills keeps the total notional within the leverage limit.
   */
  lemma {:induction false} AdmittedNotionalIsWithinLeverage(
    account: Account, positions: seq<PositionRow>, active: seq<ReservationRow>,
    order: OrderRequest, supplied: Option<Decimal>, limits: Limits)
    requires ValidRows(active) && !order.isSpot && !order.reduceOnly && order.size.raw >= 0
    requires limits.maxLeverage <= U32_MAX
    requires CheckRiskScope(Some(account), positions, active, order, supplied, limits) == Passed
    requires NoClampAnywhere(positions, Opening(active), order, ReferencePrice(order, positions, supplied))
    ensures NotionalsWithin(positions, Opening(active), order, ReferencePrice(order, positions, supplied),
                            account.equity, limits)
  {
    hide CheckRiskScope, Opening, ReferencePrice, NotionalsWithin, ExposureSymbols, Div, Mul, NoClamp;
    hide ResultingNotional, WorstNotional;
    var rows, reference := Opening(active), ReferencePrice(order, positions, supplied);
    assert ValidRows(rows);
    PassedMeans(account, positions, active, order, supplied, limits);
    NotionalIsExact(positions, rows, order, reference, ExposureSymbols(positions, rows, order));
    NotionalsWithinIff(positions, rows, order, reference, account.equity, limits);
    var n := ResultingNotional(positions, rows, order, reference, ExposureSymbols(positions, rows, order)).value;
    RoundedQuotientBound(n, account.equity, limits.maxLeverage);
  }

  /** No size and no notional of the check saturates. */
  ghost predicate NoClampAnywhere(
    positions: seq<PositionRow>, rows: seq<ReservationRow>, order: OrderRequest, reference: Decimal)
  {
    && (forall s <- ExposureSymbols(positions, rows, order) :: NoClamp(positions, rows, order, s))
    && WorstNotional(positions, rows, order, reference, ExposureSymbols(positions, rows, order)) <= I128_MAX
  }

  /** The leverage limit caps the size of every priced symbol below half the range. */
  ghost predicate LeverageBites(
    equity: Decimal, limits: Limits, positions: seq<PositionRow>, rows: seq<ReservationRow>,
    order: OrderRequest, reference: Decimal)
  {
    forall s <- ExposureSymbols(positions, rows, order) | ExposurePrice(positions, rows, order, reference, s).raw > 0 ::
      Mul(HALF, ExposurePrice(positions, rows, order, reference, s)).raw > limits.maxLeverage * equity.raw + equity.raw
  }

  /** A computed notional below the range was computed without a clamp if every worst size is below half the range. */
  lemma {:induction false} SmallNotionalIsUnclamped(
    positions: seq<PositionRow>, rows: seq<ReservationRow>, order: OrderRequest, reference: Decimal,
    symbols: seq<string>, bound: int)
    requires ValidRows(rows) && order.size.raw >= 0 && bound < I128_MAX
    requires ResultingNotional(positions, rows, order, reference, symbols).Some?
    requires ResultingNotional(positions, rows, order, reference, symbols).value.raw <= bound
    requires forall s <- symbols | ExposurePrice(positions, rows, order, reference, s).raw > 0 ::
               Mul(HALF, ExposurePrice(positions, rows, order, reference, s)).raw > bound
    ensures forall s <- symbols :: NoClamp(positions, rows, order, s)
    ensures ResultingNotional(positions, rows, order, reference, symbols).value.raw
            == WorstNotional(positions, rows, order, reference, symbols) >= 0
  {
    hide Value, ExposurePrice, NoClamp, WorstOf, WorstEnd, Mul;
    if symbols != [] {
      var s, front := symbols[|symbols| - 1], symbols[..|symbols| - 1];
      var worst, price := WorstOf(positions, rows, order, s), ExposurePrice(positions, rows, order, reference, s);
      var acc := ResultingNotional(positions, rows, order, reference, front).value;
      TermIsNonNegative(positions, rows, order, reference, symbols);
      NotionalIsNonNegative(positions, rows, order, reference, front);
      assert acc.raw <= bound && Mul(worst, price).raw <= bound;
      SmallNotionalIsUnclamped(positions, rows, order, reference, front, bound);
      if price.raw > 0 { BelowHalf(worst, price); }
      SmallWorstIsUnclamped(positions, rows, order, s);
      WorstIsFartherEnd(positions, rows, order, s);
      MulIsClampedValue(worst, price);
      FoundNotionalIsPriced(positions, rows, order, reference, symbols, |symbols| - 1);
      ValueIsMonotone(0, WorstEnd(positions, rows, order, s), price);
      assert symbols == front + [s];
    }
  }

  lemma {:induction false} TermIsNonNegative(
    positions: seq<PositionRow>, rows: seq<ReservationRow>, order: OrderRequest, reference: Decimal,
    symbols: seq<string>)
    requires ValidRows(rows) && order.size.raw >= 0 && symbols != []
    requires ResultingNotional(positions, rows, order, reference, symbols).Some?
    ensures var s := symbols[|symbols| - 1];
      Mul(WorstOf(positions, rows, order, s), ExposurePrice(positions, rows, order, reference, s)).raw >= 0
  {
    hide ExposurePrice, WorstOf, Mul, WorstEnd;
    var s := symbols[|symbols| - 1];
    var worst, price := WorstOf(positions, rows, order, s), ExposurePrice(positions, rows, order, reference, s);
    if worst.raw > 0 {
      MulNonNegative(worst, price);
    } else {
      FlatEnds(positions, rows, order, s);
      MulByZero(price);
    }
  }

  lemma {:induction false} NotionalIsNonNegative(
    positions: seq<PositionRow>, rows: seq<ReservationRow>, order: OrderRequest, reference: Decimal,
    symbols: seq<string>)
    requires ValidRows(rows) && order.size.raw >= 0
    requires ResultingNotional(positions, rows, order, reference, symbols).Some?
    ensures ResultingNotional(positions, rows, order, reference, symbols).value.raw >= 0
  {
    hide ExposurePrice, WorstOf, Mul;
    if symbols != [] {
      TermIsNonNegative(positions, rows, order, reference, symbols);
      NotionalIsNonNegative(positions, rows, order, reference, symbols[..|symbols| - 1]);
    }
  }

  /** Under such a limit whatever passes was computed without a clamp. */
  lemma {:induction false} BitingLeverageNeverClamps(
    account: Account, positions: seq<PositionRow>, active: seq<ReservationRow>,
    order: OrderRequest, supplied: Option<Decimal>, limits: Limits)
    requires ValidRows(active) && !order.isSpot && !order.reduceOnly && order.size.raw >= 0
    requires limits.maxLeverage <= U32_MAX
    requires CheckRiskScope(Some(account), positions, active, order, supplied, limits) == Passed
    requires LeverageBites(account.equity, limits, positions, Opening(active), order, ReferencePrice(order, positions, supplied))
    ensures NoClampAnywhere(positions, Opening(active), order, ReferencePrice(order, positions, supplied))
  {
    hide CheckRiskScope, Opening, ReferencePrice, ExposureSymbols, Div, Mul, NoClamp, ResultingNotional, WorstNotional;
    hide ExposurePrice;
    var rows, reference := Opening(active), ReferencePrice(order, positions, supplied);
    assert ValidRows(rows);
    PassedMeans(account, positions, active, order, supplied, limits);
    var symbols := ExposureSymbols(positions, rows, order);
    NotionalIsNonNegative(positions, rows, order, reference, symbols);
    var n := ResultingNotional(positions, rows, order, reference, symbols).value;
    RoundedQuotientBound(n, account.equity, limits.maxLeverage);
    NotionalCap(n.raw, limits.maxLeverage * account.equity.raw, account.equity.raw);
    ExposureSymbolsAreExact(positions, rows, order);
    OwnSymbolHasPrice(positions, rows, order, reference);
    assert order.symbol in symbols;
    SmallNotionalIsUnclamped(positions, rows, order, reference, symbols,
                             limits.maxLeverage * account.equity.raw + account.equity.raw);
  }

  lemma {:induction false} NotionalCap(n: int, product: int, equity: int)
    requires 2 * SCALE * n < 2 * SCALE * product + equity && equity > 0
    ensures n <= product + equity
  {
  }

  lemma {:induction false} OwnSymbolHasPrice(
    positions: seq<PositionRow>, rows: seq<ReservationRow>, order: OrderRequest, reference: Decimal)
    ensures ExposurePrice(positions, rows, order, reference, order.symbol).raw >= reference.raw
  {
  }

  // ------------------------------------------------- a clamp that admits too much

  /** Multiplying by one and dividing by oneself are exact. */
  lemma {:induction false} UnitLaws(x: Decimal)
    requires x.raw > 0
    ensures Mul(x, Decimal(SCALE)) == x && Div(x, x) == Decimal(SCALE)
  {
    DivIs(x.raw * SCALE + SCALE / 2, SCALE, x.raw);
    DivIs(x.raw * SCALE + x.raw / 2, x.raw, SCALE);
  }

  /** One reservation on one symbol without a position: the notional is one term at the common price. */
  lemma {:induction false} SoleSymbol(rows: seq<ReservationRow>, order: OrderRequest, price: Decimal)
    requires |rows| == 1 && rows[0].symbol == order.symbol == "S" && rows[0].size.raw > 0
    requires Div(rows[0].notional, rows[0].size) == price && price.raw > 0
    ensures ExposureSymbols([], rows, order) == ["S"]
    ensures ExposurePrice([], rows, order, price, "S") == price
    ensures WorstNotional([], rows, order, price, ["S"]) == Value(WorstEnd([], rows, order, "S"), price)
    ensures ResultingNotional([], rows, order, price, ["S"]) == Some(Add(ZERO, Mul(WorstOf([], rows, order, "S"), price)))
  {
    hide Mul, Div, WorstOf, WorstEnd, Value;
    assert rows[1..] == [] && ["S"][..0] == [];
    BeforeIsTotal("S", "S");
    assert Insert(["S"], "S") == ["S"] && Insert([], "S") == ["S"];
    assert InsertReservations(["S"], []) == ["S"] && InsertPositions([], []) == [];
    assert InsertReservations([], rows) == ["S"];
    assert ReservationPrice([], "S", Some(price)) == Some(price);
    assert ReservationPrice(rows, "S", None) == Some(price);
    assert ExposurePrice([], rows, order, price, "S") == price;
    assert WorstNotional([], rows, order, price, []) == 0;
    assert ResultingNotional([], rows, order, price, []) == Some(ZERO);
  }

  /** What a buy reservation and a buy order without a position can lead to. */
  lemma {:induction false} TwoBuys(rows: seq<ReservationRow>, order: OrderRequest)
    requires |rows| == 1 && rows[0].symbol == order.symbol == "S" && rows[0].side == order.side == Buy
    requires !rows[0].reduceOnly && !order.reduceOnly && rows[0].size.raw >= 0 && order.size.raw >= 0
    ensures Opening(rows) == rows && PositionSize([], "S") == ZERO
    ensures WithOrder(rows, order, "S", Buy).raw == Min(rows[0].size.raw + order.size.raw, I128_MAX)
    ensures WithOrder(rows, order, "S", Sell) == ZERO
    ensures WorstOf([], rows, order, "S").raw == Min(rows[0].size.raw + order.size.raw, I128_MAX)
    ensures EndPoint([], rows, order, "S", Buy) == rows[0].size.raw + order.size.raw
    ensures EndPoint([], rows, order, "S", Sell) == 0
  {
    assert rows[1..] == [] && rows[..0] == [];
    assert Reserved([], "S", Buy) == ZERO && Reserved([], "S", Sell) == ZERO;
    assert Reserved(rows, "S", Buy) == rows[0].size && Reserved(rows, "S", Sell) == ZERO;
    assert ExactReserved([], "S", Buy) == 0 && ExactReserved([], "S", Sell) == 0;
    assert ExactReserved(rows, "S", Buy) == rows[0].size.raw && ExactReserved(rows, "S", Sell) == 0;
  }

  /** A value the NUMERIC(38,18) columns can hold. */
  predicate Storable(d: Decimal) { Abs(d.raw) < 100_000_000_000_000_000_000_000_000_000_000_000_000 }

  const LARGE: Decimal := Decimal(90_000_000_000_000_000_000_000_000_000_000_000_000)
  const HALF_PRICE: Decimal := Decimal(500_000_000_000_000_000)

  /**
   The condition is needed, on rows that the tables can hold: a second buy of the same large size at price
   0.5 passes both checks because the reserved buys saturate, although filling everything exceeds both limits.
   */
  lemma {:induction false} SaturationCanAdmitTooMuch()
    ensures var equity := Decimal(86_000_000_000_000_000_000_000_000_000_000_000_000);
      var active := [ReservationRow("S", Buy, false, LARGE, Decimal(45_000_000_000_000_000_000_000_000_000_000_000_000))];
      var order := OrderRequest("S", Buy, LARGE, None, false, false);
      var limits := Limits(Decimal(SCALE), 1);
      && CheckRiskScope(Some(Account(equity, false)), [], active, order, Some(HALF_PRICE), limits) == Passed
      && Storable(equity) && Storable(active[0].size) && Storable(active[0].notional) && Storable(order.size)
      && !OutcomesWithin([], active, order, HALF_PRICE, PositionLimit(equity, limits))
      && !NotionalsWithin([], active, order, HALF_PRICE, equity, limits)
  {
    hide Mul, Div, ResultingNotional, ExposureSymbols, OutcomesWithin, NotionalsWithin, WorstOf, WithOrder, EndPoint;
    hide ExposurePrice, WorstNotional, Value, FindPosition;
    var equity := Decimal(86_000_000_000_000_000_000_000_000_000_000_000_000);
    var active := [ReservationRow("S", Buy, false, LARGE, Decimal(45_000_000_000_000_000_000_000_000_000_000_000_000))];
    var order := OrderRequest("S", Buy, LARGE, None, false, false);
    var limits := Limits(Decimal(SCALE), 1);
    UnitLaws(equity);
    LargeValues(equity);
    TwoBuys(active, order);
    SoleSymbol(active, order, HALF_PRICE);
    assert LeverageLimit(limits) == Decimal(SCALE);
    assert WorstOf([], active, order, "S") == Decimal(I128_MAX);
    assert CheckLimits(equity, [], active, order, HALF_PRICE, limits) == Passed;
    OutcomesWithinIff([], active, order, HALF_PRICE, PositionLimit(equity, limits));
    NotionalsWithinIff([], active, order, HALF_PRICE, equity, limits);
  }

  lemma {:induction false} LargeValues(equity: Decimal)
    requires equity.raw == 86_000_000_000_000_000_000_000_000_000_000_000_000
    ensures Mul(Decimal(I128_MAX), HALF_PRICE) == HALF && Div(HALF, equity).raw <= SCALE
    ensures Div(Decimal(45_000_000_000_000_000_000_000_000_000_000_000_000), LARGE) == HALF_PRICE
    ensures Value(2 * LARGE.raw, HALF_PRICE) == LARGE.raw
  {
    UnitLaws(equity);
    DivIsMonotone(HALF, equity, equity);
  }

  /** An ordinary order passes and meets every condition of both soundness theorems: neither speaks about nothing. */
  lemma {:induction false} OrdinaryOrderIsAdmitted()
    ensures var equity := Decimal(100 * SCALE);
      var active := [ReservationRow("S", Buy, false, Decimal(SCALE), Decimal(SCALE))];
      var order := OrderRequest("S", Buy, Decimal(SCALE), None, false, false);
      var limits := Limits(Decimal(SCALE), 1);
      && CheckRiskScope(Some(Account(equity, false)), [], active, order, Some(Decimal(SCALE)), limits) == Passed
      && NoClamp([], active, order, "S") && NoClampAnywhere([], active, order, Decimal(SCALE))
      && LimitBites(equity, limits, Decimal(SCALE)) && LeverageBites(equity, limits, [], active, order, Decimal(SCALE))
  {
    hide Mul, Div, ResultingNotional, ExposureSymbols, ExposurePrice, WorstOf, WithOrder, WorstNotional, Value, FindPosition;
    var equity := Decimal(100 * SCALE);
    var active := [ReservationRow("S", Buy, false, Decimal(SCALE), Decimal(SCALE))];
    var order := OrderRequest("S", Buy, Decimal(SCALE), None, false, false);
    var limits := Limits(Decimal(SCALE), 1);
    var two := Decimal(2 * SCALE);
    UnitLaws(equity);
    UnitLaws(HALF);
    UnitLaws(two);
    UnitLaws(Decimal(SCALE));
    TwoOfAHundred();
    TwoBuys(active, order);
    SoleSymbol(active, order, Decimal(SCALE));
    MulIsClampedValue(two, Decimal(SCALE));
    assert WorstOf([], active, order, "S") == two;
    assert LeverageLimit(limits) == Decimal(SCALE);
    assert CheckLimits(equity, [], active, order, Decimal(SCALE), limits) == Passed;
    SmallWorstIsUnclamped([], active, order, "S");
  }

  lemma {:induction false} TwoOfAHundred()
    ensures Div(Decimal(2 * SCALE), Decimal(100 * SCALE)) == Decimal(SCALE / 50)
  {
    DivIs(2 * SCALE * SCALE + 50 * SCALE, 100 * SCALE, SCALE / 50);
  }

  /**
   A reduce-only order is valid exactly when it opposes the position and is no larger than it; the one
   exception is a reduction by a single unit of the most negative size, whose absolute value saturates.
   */
  lemma {:induction false} ReduceOnlyIff(existing: Decimal, order: OrderRequest)
    requires order.size.raw > 0
    ensures ValidReduceOnly(existing, if order.side == Buy then order.size else Neg(order.size)) <==>
            (if order.side == Buy then existing.raw < 0 && order.size.raw <= 0 - existing.raw
             else 0 < order.size.raw <= existing.raw)
            && !(existing.raw == I128_MIN && order.size.raw == 1)
  {
  }

  // ------------------------------------- every exposed symbol, exactly once

  ghost predicate Ascending(xs: seq<string>) {
    forall i, j | 0 <= i < j < |xs| :: Before(xs[i], xs[j])
  }

  lemma {:induction false} BeforeIsTransitive(a: string, b: string, c: string)
    requires Before(a, b) && Before(b, c)
    ensures Before(a, c)
  {
    if a != [] && a[0] == b[0] && b[0] == c[0] {
      BeforeIsTransitive(a[1..], b[1..], c[1..]);
    }
  }

  lemma {:induction false} BeforeIsTotal(a: string, b: string)
    ensures Before(a, b) || a == b || Before(b, a)
    ensures !Before(a, a)
  {
    if a != [] {
      BeforeIsTotal(a[1..], if b == [] then [] else b[1..]);
      if b != [] && a[0] == b[0] && a[1..] == b[1..] {
        assert a == [a[0]] + a[1..] && b == [b[0]] + b[1..];
      }
    }
  }

  lemma {:induction false} InsertKeepsOrder(xs: seq<string>, s: string)
    requires Ascending(xs)
    ensures Ascending(Insert(xs, s))
    ensures forall x :: x in Insert(xs, s) <==> x in xs || x == s
  {
    if xs != [] && !Before(s, xs[0]) && s != xs[0] {
      BeforeIsTotal(s, xs[0]);
      InsertKeepsOrder(xs[1..], s);
      var rest := Insert(xs[1..], s);
      assert forall x <- rest :: Before(xs[0], x) by {
        forall x | x in rest ensures Before(xs[0], x) {
          if x != s {
            var i :| 0 <= i < |xs[1..]| && xs[1..][i] == x;
            assert xs[i + 1] == x;
          }
        }
      }
      assert forall x :: x in xs <==> x == xs[0] || x in xs[1..];
    } else if xs != [] && Before(s, xs[0]) {
      forall j | 0 <= j < |xs| ensures Before(s, xs[j]) {
        if j > 0 { BeforeIsTransitive(s, xs[0], xs[j]); }
      }
    }
  }

  lemma {:induction false} InsertPositionsShape(xs: seq<string>, rows: seq<PositionRow>)
    requires Ascending(xs)
    ensures Ascending(InsertPositions(xs, rows))
    ensures forall x :: x in InsertPositions(xs, rows) <==> x in xs || exists r :: r in rows && r.symbol == x
    decreases rows
  {
    if rows != [] {
      InsertKeepsOrder(xs, rows[0].symbol);
      InsertPositionsShape(Insert(xs, rows[0].symbol), rows[1..]);
      assert forall r :: r in rows <==> r == rows[0] || r in rows[1..];
    }
  }

  lemma {:induction false} InsertReservationsShape(xs: seq<string>, rows: seq<ReservationRow>)
    requires Ascending(xs)
    ensures Ascending(InsertReservations(xs, rows))
    ensures forall x :: x in InsertReservations(xs, rows) <==> x in xs || exists r :: r in rows && r.symbol == x
    decreases rows
  {
    if rows != [] {
      InsertKeepsOrder(xs, rows[0].symbol);
      InsertReservationsShape(Insert(xs, rows[0].symbol), rows[1..]);
      assert forall r :: r in rows <==> r == rows[0] || r in rows[1..];
    }
  }

  /** The notional sum runs over every symbol with a position, a reservation or the order, once each. */
  lemma {:induction false} ExposureSymbolsAreExact(positions: seq<PositionRow>, rows: seq<ReservationRow>, order: OrderRequest)
    ensures var xs := ExposureSymbols(positions, rows, order);
      && Ascending(xs)
      && (forall i, j | 0 <= i < j < |xs| :: xs[i] != xs[j])
      && forall x :: x in xs <==>
           x == order.symbol || (exists p :: p in positions && p.symbol == x) || (exists r :: r in rows && r.symbol == x)
  {
    InsertPositionsShape([], positions);
    InsertReservationsShape(InsertPositions([], positions), rows);
    InsertKeepsOrder(InsertReservations(InsertPositions([], positions), rows), order.symbol);
    var xs := ExposureSymbols(positions, rows, order);
    forall i, j | 0 <= i < j < |xs| ensures xs[i] != xs[j] { BeforeIsTotal(xs[i], xs[j]); }
  }
}
