/**
 The risk check that runs inside the placement transaction: the worst case over every unfilled
 opening reservation is measured against the position limit and the leverage limit.
 All arithmetic is the saturating, rounding arithmetic of DecimalCore.
 */
module RiskAdmission {
  import opened Arith
  import opened DecimalCore
  import opened Options

  datatype Side = Buy | Sell

  datatype Account = Account(equity: Decimal, stale: bool)

  datatype PositionRow = PositionRow(symbol: string, size: Decimal, mark: Option<Decimal>)

  /** An active reservation as fetched; sizes and notionals are non-negative by a table constraint. */
  datatype ReservationRow =
    ReservationRow(symbol: string, side: Side, reduceOnly: bool, size: Decimal, notional: Decimal)

  datatype OrderRequest = OrderRequest(
    symbol: string, side: Side, size: Decimal, price: Option<Decimal>, reduceOnly: bool, isSpot: bool)

  datatype Limits = Limits(maxPositionPct: Decimal, maxLeverage: nat)

  datatype Reason =
    | AccountStateNotAvailable
    | AccountStateStale
    | MarketPriceNotAvailable
    | InvalidReduceOnlyOrder
    | NonPositiveEquity
    | PositionLimitExceeded
    | LeverageExceeded

  datatype Verdict = Passed | Failed(reason: Reason)

  const U32_MAX: nat := 0xFFFF_FFFF

  ghost predicate ValidRows(rows: seq<ReservationRow>) {
    forall r <- rows :: r.size.raw >= 0
  }

  /** Symbols are unique per account scope, so the first match is the only one. */
  function FindPosition(rows: seq<PositionRow>, symbol: string): Option<PositionRow> {
    if rows == [] then None
    else if rows[0].symbol == symbol then Some(rows[0])
    else FindPosition(rows[1..], symbol)
  }

  function PositionSize(rows: seq<PositionRow>, symbol: string): Decimal {
    match FindPosition(rows, symbol)
    case Some(p) => p.size
    case None => ZERO
  }

  /** The price used when the caller supplies none: never one the order alone controls if a mark exists. */
  function ReferencePrice(order: OrderRequest, positions: seq<PositionRow>, supplied: Option<Decimal>): Decimal {
    if supplied.Some? && supplied.value.raw > 0 then supplied.value else
    var position := FindPosition(positions, order.symbol);
    var mark := if position.Some? then position.value.mark else None;
    if order.price.Some? && order.price.value.raw > 0 then
      match mark
      case Some(m) => if order.side == Sell then MaxD(order.price.value, m) else MinD(order.price.value, m)
      case None => order.price.value
    else if mark.Some? then mark.value else ZERO
  }

  function Opening(rows: seq<ReservationRow>): (r: seq<ReservationRow>)
    ensures forall x <- r :: x in rows && !x.reduceOnly
  {
    if rows == [] then []
    else if rows[0].reduceOnly then Opening(rows[1..])
    else [rows[0]] + Opening(rows[1..])
  }

  /** The accumulated reserved size of one symbol and side, with saturating addition. */
  function Reserved(rows: seq<ReservationRow>, symbol: string, side: Side): Decimal {
    if rows == [] then ZERO else
    var r := rows[|rows| - 1];
    var acc := Reserved(rows[..|rows| - 1], symbol, side);
    if r.symbol == symbol && r.side == side then Add(acc, r.size) else acc
  }

  /** The reserved total of a symbol and side including the order under check. */
  function WithOrder(rows: seq<ReservationRow>, order: OrderRequest, symbol: string, side: Side): Decimal {
    var acc := Reserved(rows, symbol, side);
    if symbol == order.symbol && side == order.side && !order.reduceOnly then Add(acc, order.size) else acc
  }

  function WorstSymbolSize(existing: Decimal, buys: Decimal, sells: Decimal): Decimal {
    MaxD(MaxD(AbsD(existing), AbsD(Add(existing, buys))), AbsD(Sub(existing, sells)))
  }

  function WorstExposure(position: Decimal, buys: Decimal, sells: Decimal): Decimal {
    MaxD(AbsD(Add(position, buys)), AbsD(Sub(position, sells)))
  }

  function Larger(best: Option<Decimal>, candidate: Decimal): Option<Decimal> {
    if best.Some? then Some(MaxD(best.value, candidate)) else Some(candidate)
  }

  /** The highest unit price implied by the reservations of a symbol. */
  function ReservationPrice(rows: seq<ReservationRow>, symbol: string, best: Option<Decimal>): Option<Decimal> {
    if rows == [] then best else
    var r := rows[0];
    var next := if r.symbol == symbol && r.size.raw > 0 then Larger(best, Div(r.notional, r.size)) else best;
    ReservationPrice(rows[1..], symbol, next)
  }

  function ExposurePrice(
    positions: seq<PositionRow>, rows: seq<ReservationRow>, order: OrderRequest, reference: Decimal, symbol: string
  ): Decimal
  {
    var position := FindPosition(positions, symbol);
    var start := if position.None? then None
                 else Some(if position.value.mark.Some? then position.value.mark.value else ZERO);
    var best := ReservationPrice(rows, symbol, start);
    var final := if symbol == order.symbol then Larger(best, reference) else best;
    if final.Some? then final.value else ZERO
  }

  // The ordered set of exposed symbols.

  predicate Before(a: string, b: string) {
    b != [] && (a == [] || a[0] < b[0] || (a[0] == b[0] && Before(a[1..], b[1..])))
  }

  function Insert(xs: seq<string>, s: string): seq<string> {
    if xs == [] || Before(s, xs[0]) then [s] + xs
    else if s == xs[0] then xs
    else [xs[0]] + Insert(xs[1..], s)
  }

  function InsertPositions(xs: seq<string>, rows: seq<PositionRow>): seq<string>
    decreases rows
  {
    if rows == [] then xs else InsertPositions(Insert(xs, rows[0].symbol), rows[1..])
  }

  function InsertReservations(xs: seq<string>, rows: seq<ReservationRow>): seq<string>
    decreases rows
  {
    if rows == [] then xs else InsertReservations(Insert(xs, rows[0].symbol), rows[1..])
  }

  function ExposureSymbols(
    positions: seq<PositionRow>, rows: seq<ReservationRow>, order: OrderRequest): seq<string>
  {
    Insert(InsertReservations(InsertPositions([], positions), rows), order.symbol)
  }

  function WorstOf(positions: seq<PositionRow>, rows: seq<ReservationRow>, order: OrderRequest, symbol: string): Decimal {
    WorstExposure(
      PositionSize(positions, symbol), WithOrder(rows, order, symbol, Buy), WithOrder(rows, order, symbol, Sell))
  }

  /** The accumulated worst-case notional, or None when an exposed symbol has no price. */
  function ResultingNotional(
    positions: seq<PositionRow>, rows: seq<ReservationRow>, order: OrderRequest, reference: Decimal,
    symbols: seq<string>
  ): Option<Decimal>
  {
    if symbols == [] then Some(ZERO) else
    var symbol := symbols[|symbols| - 1];
    var acc := ResultingNotional(positions, rows, order, reference, symbols[..|symbols| - 1]);
    if acc.None? then None else
    var worst := WorstOf(positions, rows, order, symbol);
    var price := ExposurePrice(positions, rows, order, reference, symbol);
    if worst.raw > 0 && price.raw <= 0 then None else Some(Add(acc.value, Mul(worst, price)))
  }

  predicate ValidReduceOnly(existing: Decimal, delta: Decimal) {
    var resulting := Add(existing, delta);
    && existing.raw != 0 && AbsD(resulting).raw < AbsD(existing).raw
    && (resulting.raw == 0 || (resulting.raw > 0) == (existing.raw > 0))
  }

  function PositionLimit(equity: Decimal, limits: Limits): Decimal { Mul(equity, limits.maxPositionPct) }

  function LeverageLimit(limits: Limits): Decimal { Decimal(ClampI128(limits.maxLeverage * SCALE)) }

  function CheckLimits(
    equity: Decimal, positions: seq<PositionRow>, rows: seq<ReservationRow>,
    order: OrderRequest, reference: Decimal, limits: Limits
  ): Verdict
  {
    var existing := PositionSize(positions, order.symbol);
    var worst := WorstSymbolSize(
      existing, WithOrder(rows, order, order.symbol, Buy), WithOrder(rows, order, order.symbol, Sell));
    if equity.raw <= 0 then Failed(NonPositiveEquity)
    else if !order.reduceOnly && Mul(worst, reference).raw > PositionLimit(equity, limits).raw then
      Failed(PositionLimitExceeded)
    else
      var notional := ResultingNotional(
        positions, rows, order, reference, ExposureSymbols(positions, rows, order));
      if notional.None? then Failed(MarketPriceNotAvailable)
      else if !order.reduceOnly && Div(notional.value, equity).raw > LeverageLimit(limits).raw then
        Failed(LeverageExceeded)
      else Passed
  }

  /** The decision of `check_and_lock_risk_scope` on the locked rows. */
  function CheckRiskScope(
    account: Option<Account>, positions: seq<PositionRow>, active: seq<ReservationRow>,
    order: OrderRequest, supplied: Option<Decimal>, limits: Limits
  ): Verdict
  {
    var reference := ReferencePrice(order, positions, supplied);
    var existing := PositionSize(positions, order.symbol);
    var delta := if order.side == Buy then order.size else Neg(order.size);
    if account.None? then Failed(AccountStateNotAvailable)
    else if account.value.stale then Failed(AccountStateStale)
    else if reference.raw <= 0 then Failed(MarketPriceNotAvailable)
    else if order.isSpot then Passed
    else if order.reduceOnly && !ValidReduceOnly(existing, delta) then Failed(InvalidReduceOnlyOrder)
    else CheckLimits(account.value.equity, positions, Opening(active), order, reference, limits)
  }

  // ------------------------------------------------ the accumulating loops

  method AccumulateReserved(rows: seq<ReservationRow>, order: OrderRequest, symbol: string)
    returns (buys: Decimal, sells: Decimal)
    ensures buys == WithOrder(rows, order, symbol, Buy)
    ensures sells == WithOrder(rows, order, symbol, Sell)
  {
    buys, sells := ZERO, ZERO;
    for i := 0 to |rows|
      invariant buys == Reserved(rows[..i], symbol, Buy)
      invariant sells == Reserved(rows[..i], symbol, Sell)
    {
      assert rows[..i + 1][..i] == rows[..i];
      if rows[i].symbol == symbol {
        if rows[i].side == Buy { buys := Add(buys, rows[i].size); } else { sells := Add(sells, rows[i].size); }
      }
    }
    assert rows[..|rows|] == rows;
    if symbol == order.symbol && !order.reduceOnly {
      if order.side == Buy { buys := Add(buys, order.size); } else { sells := Add(sells, order.size); }
    }
  }

  method AccumulateNotional(
    positions: seq<PositionRow>, rows: seq<ReservationRow>, order: OrderRequest, reference: Decimal,
    symbols: seq<string>
  ) returns (notional: Option<Decimal>)
    ensures notional == ResultingNotional(positions, rows, order, reference, symbols)
  {
    var total := ZERO;
    for i := 0 to |symbols|
      invariant Some(total) == ResultingNotional(positions, rows, order, reference, symbols[..i])
    {
      assert symbols[..i + 1][..i] == symbols[..i];
      var buys, sells := AccumulateReserved(rows, order, symbols[i]);
      var worst := WorstExposure(PositionSize(positions, symbols[i]), buys, sells);
      var price := ExposurePrice(positions, rows, order, reference, symbols[i]);
      if worst.raw > 0 && price.raw <= 0 {
        MissingPriceStays(positions, rows, order, reference, symbols, i + 1);
        return None;
      }
      total := Add(total, Mul(worst, price));
    }
    assert symbols[..|symbols|] == symbols;
    notional := Some(total);
  }

  lemma {:induction false} MissingPriceStays(
    positions: seq<PositionRow>, rows: seq<ReservationRow>, order: OrderRequest, reference: Decimal,
    symbols: seq<string>, i: nat)
    requires i <= |symbols| && ResultingNotional(positions, rows, order, reference, symbols[..i]).None?
    ensures ResultingNotional(positions, rows, order, reference, symbols).None?
  {
    if i < |symbols| {
      assert symbols[..|symbols| - 1][..i] == symbols[..i];
      MissingPriceStays(positions, rows, order, reference, symbols[..|symbols| - 1], i);
    } else {
      assert symbols[..i] == symbols;
    }
  }

  /** The whole decision in the order the transaction takes it. */
  method CheckAndLockRiskScope(
    account: Option<Account>, positions: seq<PositionRow>, active: seq<ReservationRow>,
    order: OrderRequest, supplied: Option<Decimal>, limits: Limits
  ) returns (verdict: Verdict)
    ensures verdict == CheckRiskScope(account, positions, active, order, supplied, limits)
  {
    if account.None? { return Failed(AccountStateNotAvailable); }
    if account.value.stale { return Failed(AccountStateStale); }
    var equity := account.value.equity;
    var reference := ReferencePrice(order, positions, supplied);
    if reference.raw <= 0 { return Failed(MarketPriceNotAvailable); }
    if order.isSpot { return Passed; }
    var existing := PositionSize(positions, order.symbol);
    var delta := if order.side == Buy then order.size else Neg(order.size);
    if order.reduceOnly && !ValidReduceOnly(existing, delta) { return Failed(InvalidReduceOnlyOrder); }
    var opening := Opening(active);
    var buys, sells := AccumulateReserved(opening, order, order.symbol);
    var worst := WorstSymbolSize(existing, buys, sells);
    if equity.raw <= 0 { return Failed(NonPositiveEquity); }
    if !order.reduceOnly && Mul(worst, reference).raw > PositionLimit(equity, limits).raw {
      return Failed(PositionLimitExceeded);
    }
    var notional := AccumulateNotional(
      positions, opening, order, reference, ExposureSymbols(positions, opening, order));
    if notional.None? { return Failed(MarketPriceNotAvailable); }
    if !order.reduceOnly && Div(notional.value, equity).raw > LeverageLimit(limits).raw {
      return Failed(LeverageExceeded);
    }
    verdict := Passed;
  }
}
