/**
 What the risk check answers, reason by reason, in exact integers and in terms of the rows it reads: which account
 states and prices let it go on, and with what the worst case is compared.
 */
module AdmissionDecision {
  import opened Arith
  import opened DecimalCore
  import opened Options
  import opened RiskAdmission
  import opened AdmissionSoundness

  // ------------------------------------------------------------------ prices

  /** The mark of the symbol's position, if there is one. */
  ghost function MarkOf(positions: seq<PositionRow>, symbol: string): Option<Decimal> {
    var position := FindPosition(positions, symbol);
    if position.Some? then position.value.mark else None
  }

  /** The row a symbol is looked up in: the first that carries it; without one the size is zero. */
  lemma {:induction false} FindPositionIs(rows: seq<PositionRow>, symbol: string)
    ensures var r := FindPosition(rows, symbol);
      && (r.None? <==> forall i | 0 <= i < |rows| :: rows[i].symbol != symbol)
      && (r.Some? ==> exists i | 0 <= i < |rows| ::
            && rows[i] == r.value && rows[i].symbol == symbol && forall j | 0 <= j < i :: rows[j].symbol != symbol)
      && PositionSize(rows, symbol) == if r.Some? then r.value.size else Decimal(0)
  {
    if rows != [] && rows[0].symbol != symbol {
      FindPositionIs(rows[1..], symbol);
      var r := FindPosition(rows, symbol);
      if r.Some? {
        var i :| 0 <= i < |rows[1..]| && rows[1..][i] == r.value && rows[1..][i].symbol == symbol
                 && forall j | 0 <= j < i :: rows[1..][j].symbol != symbol;
        forall j | 0 <= j < i + 1 ensures rows[j].symbol != symbol { if j > 0 { assert rows[1..][j - 1] == rows[j]; } }
        assert rows[i + 1] == r.value;
      } else {
        forall i | 0 <= i < |rows| ensures rows[i].symbol != symbol { if i > 0 { assert rows[1..][i - 1] == rows[i]; } }
      }
    }
  }

  /** The reservations that open exposure: all that are not reduce-only, each as often as it is there. */
  lemma {:induction false} OpeningIs(rows: seq<ReservationRow>, x: ReservationRow)
    ensures multiset(Opening(rows))[x] == if x.reduceOnly then 0 else multiset(rows)[x]
  {
    if rows != [] {
      OpeningIs(rows[1..], x);
      assert rows == [rows[0]] + rows[1..];
    }
  }

  predicate PositivePrice(p: Option<Decimal>) { p.Some? && p.value.raw > 0 }

  /**
   A positive supplied price wins. Without one a sell is valued at the higher and a buy at the lower of its own
   limit and the mark; with only one of the two at that one, and with neither at zero.
   */
  lemma {:induction false} ReferencePriceIs(order: OrderRequest, positions: seq<PositionRow>, supplied: Option<Decimal>)
    ensures var r, mark := ReferencePrice(order, positions, supplied), MarkOf(positions, order.symbol);
      && (PositivePrice(supplied) ==> r == supplied.value)
      && (!PositivePrice(supplied) && PositivePrice(order.price) && mark.Some? ==>
            && (r == order.price.value || r == mark.value)
            && (order.side == Sell ==> r.raw >= order.price.value.raw && r.raw >= mark.value.raw)
            && (order.side == Buy ==> r.raw <= order.price.value.raw && r.raw <= mark.value.raw))
      && (!PositivePrice(supplied) && PositivePrice(order.price) && mark.None? ==> r == order.price.value)
      && (!PositivePrice(supplied) && !PositivePrice(order.price) ==> r == if mark.Some? then mark.value else ZERO)
  {
  }

  /** A price the exposure in a symbol may be valued at: the mark, a reservation's unit price, the reference. */
  ghost predicate Candidate(
    positions: seq<PositionRow>, rows: seq<ReservationRow>, order: OrderRequest, reference: Decimal, s: string, p: Decimal)
  {
    || (FindPosition(positions, s).Some? && p == if MarkOf(positions, s).Some? then MarkOf(positions, s).value else ZERO)
    || (exists r <- rows :: r.symbol == s && r.size.raw > 0 && p == Div(r.notional, r.size))
    || (s == order.symbol && p == reference)
  }

  ghost predicate UnitPrice(rows: seq<ReservationRow>, s: string, p: Decimal) {
    exists r <- rows :: r.symbol == s && r.size.raw > 0 && p == Div(r.notional, r.size)
  }

  lemma {:induction false} ReservationPriceIsMax(rows: seq<ReservationRow>, s: string, best: Option<Decimal>)
    ensures var r := ReservationPrice(rows, s, best);
      && (best.Some? ==> r.Some? && best.value.raw <= r.value.raw)
      && (forall p | UnitPrice(rows, s, p) :: r.Some? && p.raw <= r.value.raw)
      && (r.Some? ==> r == best || UnitPrice(rows, s, r.value))
  {
    hide Div;
    if rows != [] {
      var row := rows[0];
      var next := if row.symbol == s && row.size.raw > 0 then Larger(best, Div(row.notional, row.size)) else best;
      ReservationPriceIsMax(rows[1..], s, next);
      assert rows == [row] + rows[1..];
      forall p | UnitPrice(rows, s, p)
        ensures ReservationPrice(rows, s, best).Some? && p.raw <= ReservationPrice(rows, s, best).value.raw
      {
        var r :| r in rows && r.symbol == s && r.size.raw > 0 && p == Div(r.notional, r.size);
        if r != row { assert UnitPrice(rows[1..], s, p); }
      }
      var r := ReservationPrice(rows, s, best);
      if r.Some? && UnitPrice(rows[1..], s, r.value) { assert UnitPrice(rows, s, r.value); }
      if r == next && next != best { assert UnitPrice(rows, s, r.value); }
    }
  }

  /** The exposure in a symbol is valued at the highest candidate, or at zero when there is none. */
  lemma {:induction false} ExposurePriceIsMax(
    positions: seq<PositionRow>, rows: seq<ReservationRow>, order: OrderRequest, reference: Decimal, s: string)
    ensures var price := ExposurePrice(positions, rows, order, reference, s);
      && (forall p | Candidate(positions, rows, order, reference, s, p) :: p.raw <= price.raw)
      && (Candidate(positions, rows, order, reference, s, price)
          || (price == ZERO && forall p :: !Candidate(positions, rows, order, reference, s, p)))
  {
    hide Div, ReservationPrice;
    var mark := MarkOf(positions, s);
    var start := if FindPosition(positions, s).None? then None else Some(if mark.Some? then mark.value else ZERO);
    ReservationPriceIsMax(rows, s, start);
    var price := ExposurePrice(positions, rows, order, reference, s);
    forall p | Candidate(positions, rows, order, reference, s, p) ensures p.raw <= price.raw {
      assert (s == order.symbol && p == reference) || UnitPrice(rows, s, p) || start == Some(p);
    }
    var best := ReservationPrice(rows, s, start);
    if best.Some? && UnitPrice(rows, s, best.value) { assert Candidate(positions, rows, order, reference, s, best.value); }
  }

  // ---------------------------------------------------------------- verdicts

  predicate Fresh(account: Option<Account>) { account.Some? && !account.value.stale }

  /** The order opposes the position and is no larger; the last conjunct is the one saturating exception. */
  predicate Reduces(existing: Decimal, order: OrderRequest) {
    && (if order.side == Buy then existing.raw < 0 && order.size.raw <= 0 - existing.raw
        else 0 < order.size.raw <= existing.raw)
    && !(existing.raw == I128_MIN && order.size.raw == 1)
  }

  /** The answers that need no sum: account, price, spot orders, reductions and equity, in this order. */
  lemma {:induction false} EarlyAnswers(
    account: Option<Account>, positions: seq<PositionRow>, active: seq<ReservationRow>,
    order: OrderRequest, supplied: Option<Decimal>, limits: Limits)
    requires order.size.raw > 0
    ensures var v, priced :=
        CheckRiskScope(account, positions, active, order, supplied, limits),
        ReferencePrice(order, positions, supplied).raw > 0;
      var reduces := Reduces(PositionSize(positions, order.symbol), order);
      && (v == Failed(AccountStateNotAvailable) <==> account.None?)
      && (v == Failed(AccountStateStale) <==> account.Some? && account.value.stale)
      && (Fresh(account) && !priced ==> v == Failed(MarketPriceNotAvailable))
      && (Fresh(account) && priced && order.isSpot ==> v == Passed)
      && (v == Failed(InvalidReduceOnlyOrder) <==>
            Fresh(account) && priced && !order.isSpot && order.reduceOnly && !reduces)
      && (v == Failed(NonPositiveEquity) <==>
            Fresh(account) && priced && !order.isSpot && (order.reduceOnly ==> reduces)
            && account.value.equity.raw <= 0)
  {
    hide Mul, Div, ResultingNotional, ExposureSymbols, ValidReduceOnly, ReferencePrice, Opening, WithOrder, FindPosition;
    ReduceOnlyIff(PositionSize(positions, order.symbol), order);
  }

  /** The order is a perp order that may open exposure, and every earlier condition of the check holds. */
  predicate ReachesLimits(
    account: Option<Account>, positions: seq<PositionRow>, order: OrderRequest, supplied: Option<Decimal>)
  {
    && Fresh(account) && account.value.equity.raw > 0 && order.size.raw > 0
    && !order.isSpot && !order.reduceOnly && ReferencePrice(order, positions, supplied).raw > 0
  }

  /** The existing position lies between the two ends, so the worst size is the farther end's. */
  lemma {:induction false} WorstSizeIsFartherEnd(
    positions: seq<PositionRow>, rows: seq<ReservationRow>, order: OrderRequest)
    requires ValidRows(rows) && order.size.raw >= 0 && NoClamp(positions, rows, order, order.symbol)
    ensures WorstSymbolSize(
        PositionSize(positions, order.symbol),
        WithOrder(rows, order, order.symbol, Buy), WithOrder(rows, order, order.symbol, Sell)).raw
      == WorstEnd(positions, rows, order, order.symbol)
  {
    hide WithOrder, ExactWithOrder, PositionSize;
    WithOrderIsSaturatedSum(rows, order, order.symbol, Buy);
    WithOrderIsSaturatedSum(rows, order, order.symbol, Sell);
  }

  /**
   An opening perp order is refused for its position exactly when the value of the farther exact end at the
   reference price exceeds equity times max_position_pct, both rounded to the nearest unit, ties away from zero.
   */
  lemma {:induction false} PositionRefusalIff(
    account: Option<Account>, positions: seq<PositionRow>, active: seq<ReservationRow>,
    order: OrderRequest, supplied: Option<Decimal>, limits: Limits, q: int)
    requires ValidRows(active) && ReachesLimits(account, positions, order, supplied)
    requires NoClamp(positions, Opening(active), order, order.symbol)
    requires RoundsHalfAway(account.value.equity.raw * limits.maxPositionPct.raw, SCALE, q)
    ensures CheckRiskScope(account, positions, active, order, supplied, limits) == Failed(PositionLimitExceeded) <==>
      ClampI128(Value(WorstEnd(positions, Opening(active), order, order.symbol),
                      ReferencePrice(order, positions, supplied))) > ClampI128(q)
  {
    hide Mul, Div, ResultingNotional, ExposureSymbols, ReferencePrice, Opening, WithOrder, FindPosition, Value, WorstEnd;
    hide WorstSymbolSize, NoClamp, RoundsHalfAway;
    var rows, reference := Opening(active), ReferencePrice(order, positions, supplied);
    assert ValidRows(rows);
    WorstSizeIsFartherEnd(positions, rows, order);
    var worst := WorstSymbolSize(
      PositionSize(positions, order.symbol),
      WithOrder(rows, order, order.symbol, Buy), WithOrder(rows, order, order.symbol, Sell));
    MulIsClampedValue(worst, reference);
    MulIsCorrectlyRounded(account.value.equity, limits.maxPositionPct);
  }

  /**
   What passing means in exact integers: for every choice of fills, size times reference price is within equity
   times max_position_pct, up to one unit of rounding, when no sum and no product saturates.
   */
  lemma {:induction false} AdmittedValueIsWithinPercentage(
    account: Account, positions: seq<PositionRow>, active: seq<ReservationRow>,
    order: OrderRequest, supplied: Option<Decimal>, limits: Limits, fills: seq<int>, own: int)
    requires ValidRows(active) && !order.isSpot && !order.reduceOnly && 0 <= own <= order.size.raw
    requires CheckRiskScope(Some(account), positions, active, order, supplied, limits) == Passed
    requires NoClamp(positions, Opening(active), order, order.symbol) && order.size.raw > 0
    requires Value(WorstEnd(positions, Opening(active), order, order.symbol),
                   ReferencePrice(order, positions, supplied)) <= I128_MAX
    requires ValidFills(Opening(active), fills)
    ensures var x := PositionAfter(positions, Opening(active), fills, order, own, order.symbol);
      2 * SCALE * Value(Abs(x), ReferencePrice(order, positions, supplied))
      <= 2 * account.equity.raw * limits.maxPositionPct.raw + SCALE
  {
    hide CheckRiskScope, Mul, Opening, ReferencePrice, Value, EndPoint, PositionAfter, NoClamp, ValidFills, RoundsHalfAway;
    hide MulQuotient, ReachesLimits, PositionSize;
    var rows, reference := Opening(active), ReferencePrice(order, positions, supplied);
    var q := MulQuotient(account.equity, limits.maxPositionPct);
    FartherEndIsWithin(account, positions, active, order, supplied, limits, q);
    ValidFillsLength(rows, fills);
    OutcomeBetweenEnds(positions, rows, fills, order, own, order.symbol);
    var x := PositionAfter(positions, rows, fills, order, own, order.symbol);
    ValueIsMonotone(Abs(x), WorstEnd(positions, rows, order, order.symbol), reference);
    RoundedBound(account.equity.raw * limits.maxPositionPct.raw, q, Value(Abs(x), reference));
    assert 2 * account.equity.raw * limits.maxPositionPct.raw == 2 * (account.equity.raw * limits.maxPositionPct.raw);
  }

  lemma {:induction false} FartherEndIsWithin(
    account: Account, positions: seq<PositionRow>, active: seq<ReservationRow>,
    order: OrderRequest, supplied: Option<Decimal>, limits: Limits, q: int)
    requires ValidRows(active) && !order.isSpot && !order.reduceOnly && order.size.raw > 0
    requires CheckRiskScope(Some(account), positions, active, order, supplied, limits) == Passed
    requires NoClamp(positions, Opening(active), order, order.symbol)
    requires Value(WorstEnd(positions, Opening(active), order, order.symbol),
                   ReferencePrice(order, positions, supplied)) <= I128_MAX
    requires q == MulQuotient(account.equity, limits.maxPositionPct)
    ensures RoundsHalfAway(account.equity.raw * limits.maxPositionPct.raw, SCALE, q)
    ensures Value(WorstEnd(positions, Opening(active), order, order.symbol), ReferencePrice(order, positions, supplied)) <= q
    ensures ReferencePrice(order, positions, supplied).raw > 0
  {
    hide CheckRiskScope, Mul, Opening, ReferencePrice, Value, WorstEnd, NoClamp, MulQuotient, RoundsHalfAway;
    PassedReaches(account, positions, active, order, supplied, limits);
    MulIsCorrectlyRounded(account.equity, limits.maxPositionPct);
    PositionRefusalIff(Some(account), positions, active, order, supplied, limits, q);
    ValueIsMonotone(0, WorstEnd(positions, Opening(active), order, order.symbol), ReferencePrice(order, positions, supplied));
  }

  lemma {:induction false} PassedReaches(
    account: Account, positions: seq<PositionRow>, active: seq<ReservationRow>,
    order: OrderRequest, supplied: Option<Decimal>, limits: Limits)
    requires CheckRiskScope(Some(account), positions, active, order, supplied, limits) == Passed
    requires !order.isSpot && !order.reduceOnly && order.size.raw > 0
    ensures ReachesLimits(Some(account), positions, order, supplied)
  {
    hide Mul, Div, ResultingNotional, ExposureSymbols, ReferencePrice, Opening, WithOrder, FindPosition;
  }

  lemma {:induction false} RoundedBound(product: int, q: int, value: int)
    requires RoundsHalfAway(product, SCALE, q) && value <= q
    ensures 2 * SCALE * value <= 2 * product + SCALE
  {
  }

  /** Some symbol with exposure in the worst case has no positive candidate price. */
  ghost predicate MissesPrice(
    positions: seq<PositionRow>, rows: seq<ReservationRow>, order: OrderRequest, reference: Decimal, symbols: seq<string>)
  {
    exists s <- symbols ::
      WorstOf(positions, rows, order, s).raw > 0 && ExposurePrice(positions, rows, order, reference, s).raw <= 0
  }

  lemma {:induction false} NotionalMissingIff(
    positions: seq<PositionRow>, rows: seq<ReservationRow>, order: OrderRequest, reference: Decimal, symbols: seq<string>)
    ensures ResultingNotional(positions, rows, order, reference, symbols).None? <==>
      MissesPrice(positions, rows, order, reference, symbols)
  {
    hide WorstOf, ExposurePrice, Mul;
    if symbols != [] {
      var front, s := symbols[..|symbols| - 1], symbols[|symbols| - 1];
      NotionalMissingIff(positions, rows, order, reference, front);
      assert symbols == front + [s];
    }
  }

  /** An order within the position limit is refused for a missing price exactly when an exposed symbol has none. */
  lemma {:induction false} MissingPriceIff(
    account: Option<Account>, positions: seq<PositionRow>, active: seq<ReservationRow>,
    order: OrderRequest, supplied: Option<Decimal>, limits: Limits)
    requires ReachesLimits(account, positions, order, supplied)
    requires CheckRiskScope(account, positions, active, order, supplied, limits) != Failed(PositionLimitExceeded)
    ensures var rows := Opening(active);
      CheckRiskScope(account, positions, active, order, supplied, limits) == Failed(MarketPriceNotAvailable) <==>
      MissesPrice(positions, rows, order, ReferencePrice(order, positions, supplied), ExposureSymbols(positions, rows, order))
  {
    hide Mul, Div, ResultingNotional, ExposureSymbols, ReferencePrice, Opening, WithOrder, FindPosition, MissesPrice;
    NotionalMissingIff(positions, Opening(active), order, ReferencePrice(order, positions, supplied),
                       ExposureSymbols(positions, Opening(active), order));
  }

  /**
   An order within the position limit and with all prices is refused for leverage exactly when the notional at the
   farther exact ends, divided by equity and rounded to the nearest unit, exceeds max_leverage; otherwise it passes.
   */
  lemma {:induction false} LeverageRefusalIff(
    account: Option<Account>, positions: seq<PositionRow>, active: seq<ReservationRow>,
    order: OrderRequest, supplied: Option<Decimal>, limits: Limits, q: int)
    requires ValidRows(active) && ReachesLimits(account, positions, order, supplied) && limits.maxLeverage <= U32_MAX
    requires CheckRiskScope(account, positions, active, order, supplied, limits)
               !in {Failed(PositionLimitExceeded), Failed(MarketPriceNotAvailable)}
    requires NoClampAnywhere(positions, Opening(active), order, ReferencePrice(order, positions, supplied))
    requires var rows := Opening(active);
      RoundsHalfAway(
        WorstNotional(positions, rows, order, ReferencePrice(order, positions, supplied), ExposureSymbols(positions, rows, order))
          * SCALE, account.value.equity.raw, q)
    ensures CheckRiskScope(account, positions, active, order, supplied, limits) ==
      if ClampI128(q) > limits.maxLeverage * SCALE then Failed(LeverageExceeded) else Passed
  {
    hide Mul, Div, ResultingNotional, WorstNotional, ExposureSymbols, ReferencePrice, Opening, WithOrder, FindPosition;
    hide NoClamp, RoundsHalfAway;
    var rows, reference := Opening(active), ReferencePrice(order, positions, supplied);
    assert ValidRows(rows);
    var symbols := ExposureSymbols(positions, rows, order);
    NotionalIsExact(positions, rows, order, reference, symbols);
    DivIsCorrectlyRounded(ResultingNotional(positions, rows, order, reference, symbols).value, account.value.equity);
  }

  /** A reduce-only order that reduces is bound by no limit: it is refused only for a missing price. */
  lemma {:induction false} ReductionIsNotLimited(
    account: Option<Account>, positions: seq<PositionRow>, active: seq<ReservationRow>,
    order: OrderRequest, supplied: Option<Decimal>, limits: Limits)
    requires Fresh(account) && account.value.equity.raw > 0 && order.size.raw > 0 && !order.isSpot && order.reduceOnly
    requires ReferencePrice(order, positions, supplied).raw > 0 && Reduces(PositionSize(positions, order.symbol), order)
    ensures var rows := Opening(active);
      CheckRiskScope(account, positions, active, order, supplied, limits) ==
        if MissesPrice(positions, rows, order, ReferencePrice(order, positions, supplied),
                       ExposureSymbols(positions, rows, order))
        then Failed(MarketPriceNotAvailable) else Passed
  {
    hide Mul, Div, ResultingNotional, ExposureSymbols, ValidReduceOnly, ReferencePrice, Opening, WithOrder, FindPosition;
    hide MissesPrice;
    ReduceOnlyIff(PositionSize(positions, order.symbol), order);
    NotionalMissingIff(positions, Opening(active), order, ReferencePrice(order, positions, supplied),
                       ExposureSymbols(positions, Opening(active), order));
  }

  /** Equity 1000, a quarter of it per position, leverage 5: a buy of 1 at 2000 is refused for its position. */
  lemma {:induction false} QuarterOfEquityIsTheLimit()
    ensures var order := OrderRequest("S", Buy, Decimal(SCALE), None, false, false);
      CheckRiskScope(Some(Account(Decimal(1000 * SCALE), false)), [], [], order, Some(Decimal(2000 * SCALE)),
                     Limits(Decimal(SCALE / 4), 5)) == Failed(PositionLimitExceeded)
  {
    var order := OrderRequest("S", Buy, Decimal(SCALE), None, false, false);
    assert ExactReserved([], "S", Buy) == 0 && ExactReserved([], "S", Sell) == 0;
    assert WorstEnd([], [], order, "S") == SCALE && Opening([]) == [];
    OneAt2000();
    PositionRefusalIff(Some(Account(Decimal(1000 * SCALE), false)), [], [], order, Some(Decimal(2000 * SCALE)),
                       Limits(Decimal(SCALE / 4), 5), 250 * SCALE);
  }

  lemma {:induction false} OneAt2000()
    ensures Value(SCALE, Decimal(2000 * SCALE)) == 2000 * SCALE
    ensures RoundsHalfAway((1000 * SCALE) * (SCALE / 4), SCALE, 250 * SCALE)
  {
  }
}
