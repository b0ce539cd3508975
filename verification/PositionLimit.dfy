/**
 Position-limit safety over whole runs. For each symbol the envelope from "position minus reserved
 sells" to "position plus reserved buys" is widened only by an admission, which keeps it within the
 limit; fills, releases and lapses only narrow it. So the position never leaves the limit.
 Equity, limits and reference prices are fixed during a run.
 */
module PositionLimit {
  import opened Arith
  import opened DecimalCore
  import opened Options
  import opened RiskAdmission
  import opened AdmissionSoundness
  import opened AdmissionDecision
  import opened OrderLedger

  /** The fixed surroundings of a run: what admissions are checked against. */
  datatype Market = Market(equity: Decimal, limits: Limits, price: string -> Decimal)

  ghost predicate Priced(m: Market) {
    forall s :: m.price(s).raw > 0
  }

  /** The reserved size that could still open exposure. */
  ghost function Reach(rows: seq<Reservation>, symbol: string, side: Side): int {
    if rows == [] then 0 else
    var r := rows[|rows| - 1];
    Reach(rows[..|rows| - 1], symbol, side)
      + (if r.status == Active && !r.reduceOnly && r.symbol == symbol && r.side == side then r.size.raw else 0)
  }

  ghost predicate Sized(rows: seq<Reservation>) { forall i | 0 <= i < |rows| :: rows[i].size.raw >= 0 }

  ghost function High(t: Tables, s: string): int { PositionSize(t.positions, s).raw + Reach(t.reservations, s, Buy) }

  ghost function Low(t: Tables, s: string): int { PositionSize(t.positions, s).raw - Reach(t.reservations, s, Sell) }

  /** A size whose value at the reference price is within the position limit. */
  ghost predicate Within(m: Market, s: string, size: int) {
    SizeWithin(size, m.price(s), PositionLimit(m.equity, m.limits))
  }

  ghost predicate SymbolSafe(t: Tables, m: Market, s: string) { Within(m, s, High(t, s)) && Within(m, s, Low(t, s)) }

  ghost predicate Safe(t: Tables, m: Market) {
    Sized(t.reservations) && forall s :: SymbolSafe(t, m, s)
  }

  lemma {:induction false} WithinBetween(m: Market, s: string, low: int, x: int, high: int)
    requires Priced(m) && Within(m, s, low) && Within(m, s, high) && low <= x <= high
    ensures Within(m, s, x)
  {
    BetweenIsWithin(low, x, high, m.price(s), PositionLimit(m.equity, m.limits));
  }

  // ----------------------------------------------------- sums of reservations

  lemma {:induction false} ReachIsNonNegative(rows: seq<Reservation>, s: string, side: Side)
    requires Sized(rows)
    ensures Reach(rows, s, side) >= 0
  {
    if rows != [] { ReachIsNonNegative(rows[..|rows| - 1], s, side); }
  }

  /** The row reserves no more than before. */
  ghost predicate NoMore(a: Reservation, b: Reservation) {
    && b.symbol == a.symbol && b.side == a.side && b.reduceOnly == a.reduceOnly
    && (b.status == Active ==> a.status == Active && b.size.raw <= a.size.raw)
    && 0 <= a.size.raw && 0 <= b.size.raw
  }

  ghost predicate Shrinks(a: seq<Reservation>, b: seq<Reservation>) {
    |a| == |b| && forall i | 0 <= i < |a| :: NoMore(a[i], b[i])
  }

  lemma {:induction false} ReachShrinks(a: seq<Reservation>, b: seq<Reservation>, s: string, side: Side)
    requires Shrinks(a, b)
    ensures Reach(b, s, side) <= Reach(a, s, side)
  {
    if a != [] { ReachShrinks(a[..|a| - 1], b[..|b| - 1], s, side); }
  }

  lemma {:induction false} ReachAppend(rows: seq<Reservation>, r: Reservation, s: string, side: Side)
    ensures Reach(rows + [r], s, side) == Reach(rows, s, side)
            + (if r.status == Active && !r.reduceOnly && r.symbol == s && r.side == side then r.size.raw else 0)
  {
    assert (rows + [r])[..|rows|] == rows;
  }

  /** Replacing one row changes the sum by that row's share. */
  lemma {:induction false} ReachReplace(rows: seq<Reservation>, i: nat, r: Reservation, s: string, side: Side)
    requires i < |rows|
    ensures Reach(rows[i := r], s, side) == Reach(rows, s, side) - Reach([rows[i]], s, side) + Reach([r], s, side)
  {
    var n := |rows| - 1;
    assert [rows[i]][..0] == [] && [r][..0] == [];
    if i == n {
      assert rows[i := r][..n] == rows[..n];
    } else {
      assert rows[i := r][..n] == rows[..n][i := r];
      ReachReplace(rows[..n], i, r, s, side);
    }
  }

  lemma {:induction false} ReachOne(r: Reservation, s: string, side: Side)
    ensures Reach([r], s, side) ==
            if r.status == Active && !r.reduceOnly && r.symbol == s && r.side == side then r.size.raw else 0
  {
    assert [r][..0] == [];
  }

  lemma {:induction false} OpeningConcat(a: seq<ReservationRow>, b: seq<ReservationRow>)
    ensures Opening(a + b) == Opening(a) + Opening(b)
  {
    if a == [] {
      assert a + b == b;
    } else {
      assert (a + b)[1..] == a[1..] + b;
      OpeningConcat(a[1..], b);
    }
  }

  /** The check sums exactly the reservations that could still open exposure. */
  lemma {:induction false} ReachIsExactReserved(rows: seq<Reservation>, s: string, side: Side)
    ensures Reach(rows, s, side) == ExactReserved(Opening(ActiveRows(rows)), s, side)
  {
    if rows != [] {
      var front, r := rows[..|rows| - 1], rows[|rows| - 1];
      ReachIsExactReserved(front, s, side);
      var row := ReservationRow(r.symbol, r.side, r.reduceOnly, r.size, r.notional);
      if r.status == Active {
        OpeningConcat(ActiveRows(front), [row]);
        assert [row][1..] == [];
        assert Opening([row]) == if r.reduceOnly then [] else [row];
        var open := Opening(ActiveRows(front));
        if !r.reduceOnly { assert (open + [row])[..|open|] == open; } else { assert open + [] == open; }
      }
    }
  }

  lemma {:induction false} ActiveRowsAreValid(rows: seq<Reservation>)
    requires Sized(rows)
    ensures ValidRows(ActiveRows(rows))
  {
    if rows != [] { ActiveRowsAreValid(rows[..|rows| - 1]); }
  }

  // --------------------------------------------------------------- positions

  lemma {:induction false} UpsertedSize(rows: seq<PositionRow>, symbol: string, size: Decimal, mark: Decimal, s: string)
    ensures PositionSize(UpsertPosition(rows, symbol, size, mark), s) ==
            if s == symbol then size else PositionSize(rows, s)
  {
    if rows == [] {
      assert [PositionRow(symbol, size, Some(mark))][1..] == [];
    } else if rows[0].symbol != symbol {
      UpsertedSize(rows[1..], symbol, size, mark, s);
      var after := UpsertPosition(rows, symbol, size, mark);
      assert after[0] == rows[0] && after[1..] == UpsertPosition(rows[1..], symbol, size, mark);
    } else {
      assert UpsertPosition(rows, symbol, size, mark)[1..] == rows[1..];
    }
  }

  // --------------------------------------------------------------- admission

  lemma {:induction false} OpeningIsValid(active: seq<ReservationRow>)
    requires ValidRows(active)
    ensures ValidRows(Opening(active))
  {
  }

  /** What a passed check without a clamp says about one end of the envelope with the new order's reservation added. */
  lemma {:induction false} AdmittedSide(t: Tables, rows: seq<Reservation>, order: OrderRequest, m: Market, side: Side)
    requires Priced(m) && Sized(rows) && !order.isSpot && !order.reduceOnly && order.size.raw >= 0
    requires CheckRiskScope(Some(Account(m.equity, false)), t.positions, ActiveRows(rows), order,
                            Some(m.price(order.symbol)), m.limits) == Passed
    requires NoClamp(t.positions, Opening(ActiveRows(rows)), order, order.symbol)
    ensures var p := PositionSize(t.positions, order.symbol).raw;
      var q := Reach(rows, order.symbol, side) + (if order.side == side then order.size.raw else 0);
      Within(m, order.symbol, if side == Buy then p + q else p - q)
  {
    hide CheckRiskScope, Opening, ActiveRows, Reach, ExactReserved, NoClamp, Mul;
    var active := ActiveRows(rows);
    ActiveRowsAreValid(rows);
    OpeningIsValid(active);
    ReachIsExactReserved(rows, order.symbol, side);
    assert ReferencePrice(order, t.positions, Some(m.price(order.symbol))) == m.price(order.symbol);
    hide ReferencePrice;
    AdmittedEndIsWithin(
      Account(m.equity, false), t.positions, active, order, Some(m.price(order.symbol)), m.limits, side);
  }

  lemma {:induction false} AdmittedEnvelope(t: Tables, rows: seq<Reservation>, order: OrderRequest, m: Market)
    requires Priced(m) && Sized(rows) && !order.isSpot && !order.reduceOnly && order.size.raw >= 0
    requires CheckRiskScope(Some(Account(m.equity, false)), t.positions, ActiveRows(rows), order,
                            Some(m.price(order.symbol)), m.limits) == Passed
    requires NoClamp(t.positions, Opening(ActiveRows(rows)), order, order.symbol)
    ensures var p := PositionSize(t.positions, order.symbol).raw;
      && Within(m, order.symbol, p + Reach(rows, order.symbol, Buy) + (if order.side == Buy then order.size.raw else 0))
      && Within(m, order.symbol, p - Reach(rows, order.symbol, Sell) - (if order.side == Sell then order.size.raw else 0))
  {
    hide CheckRiskScope, ActiveRows, Reach, Within, Priced, NoClamp, Opening;
    AdmittedSide(t, rows, order, m, Buy);
    AdmittedSide(t, rows, order, m, Sell);
  }

  // ------------------------------------------------------------------- steps

  /** The envelope of a symbol lies inside what it was. */
  ghost predicate Narrows(t: Tables, u: Tables, s: string) { Low(t, s) <= Low(u, s) <= High(u, s) <= High(t, s) }

  lemma {:induction false} NarrowKeepsSymbol(t: Tables, u: Tables, m: Market, s: string)
    requires Priced(m) && SymbolSafe(t, m, s) && Narrows(t, u, s)
    ensures SymbolSafe(u, m, s)
  {
    hide Within, Low, High;
    WithinBetween(m, s, Low(t, s), High(u, s), High(t, s));
    WithinBetween(m, s, Low(t, s), Low(u, s), High(t, s));
  }

  /** Steps that leave positions alone and reserve no more keep every envelope inside. */
  lemma {:induction false} ShrinkKeepsSafe(t: Tables, u: Tables, m: Market)
    requires Priced(m) && Safe(t, m) && u.positions == t.positions && Shrinks(t.reservations, u.reservations)
    ensures Safe(u, m)
  {
    hide Reach, Within, Narrows, Shrinks;
    ShrunkIsSized(t.reservations, u.reservations);
    forall s ensures SymbolSafe(u, m, s) {
      assert SymbolSafe(t, m, s);
      ShrinkNarrows(t, u, s);
      NarrowKeepsSymbol(t, u, m, s);
    }
  }

  lemma {:induction false} ShrunkIsSized(a: seq<Reservation>, b: seq<Reservation>)
    requires Shrinks(a, b)
    ensures Sized(b)
  {
  }

  lemma {:induction false} ShrinkNarrows(t: Tables, u: Tables, s: string)
    requires u.positions == t.positions && Shrinks(t.reservations, u.reservations)
    ensures Narrows(t, u, s)
  {
    ShrunkIsSized(t.reservations, u.reservations);
    hide Reach;
    ReachShrinks(t.reservations, u.reservations, s, Buy);
    ReachShrinks(t.reservations, u.reservations, s, Sell);
    ReachIsNonNegative(u.reservations, s, Buy);
    ReachIsNonNegative(u.reservations, s, Sell);
  }

  lemma {:induction false} CloseShrinks(rows: seq<Reservation>, order: nat, status: OrderStatus)
    requires Sized(rows)
    ensures Shrinks(rows, CloseReservation(rows, order, status))
  {
  }

  lemma {:induction false} SweepShrinks(t: Tables, cfg: Config, p: Placement)
    requires Sized(t.reservations)
    ensures Shrinks(t.reservations, SweptReservations(t, cfg, p))
  {
  }

  /** A placement that may go out is checked against this market, without a clamp, unless it cannot open exposure. */
  ghost predicate OrderlyPlacement(t: Tables, cfg: Config, m: Market, p: Placement) {
    p.dispatch && !p.order.reduceOnly && !p.order.riskReducing ==>
      && !p.order.isSpot
      && t.account == Some(Account(m.equity, false))
      && p.riskPassed && cfg.limits == Some(m.limits) && p.supplied == Some(m.price(p.order.symbol))
      && NoClamp(t.positions, CheckedRows(t, cfg, p), Request(p.order), p.order.symbol)
  }

  /** The reservations a placement's worst case is summed over. */
  ghost function CheckedRows(t: Tables, cfg: Config, p: Placement): seq<ReservationRow> {
    Opening(ActiveRows(SweptReservations(t, cfg, p)))
  }

  /** Under a limit that bites below half the range, an admitted placement was summed without a clamp. */
  lemma {:induction false} BitingMarketNeverClamps(t: Tables, cfg: Config, m: Market, p: Placement)
    requires Sized(t.reservations) && p.order.size.raw >= 0 && !p.order.isSpot && !p.order.reduceOnly
    requires t.account == Some(Account(m.equity, false)) && m.price(p.order.symbol).raw > 0
    requires p.riskPassed && cfg.limits == Some(m.limits) && p.supplied == Some(m.price(p.order.symbol))
    requires Dispatches(t, cfg, p) && LimitBites(m.equity, m.limits, m.price(p.order.symbol))
    ensures NoClamp(t.positions, CheckedRows(t, cfg, p), Request(p.order), p.order.symbol)
  {
    SweepShrinks(t, cfg, p);
    ShrunkIsSized(t.reservations, SweptReservations(t, cfg, p));
    hide CheckRiskScope, ActiveRows, SweptReservations, Opening, NoClamp, Mul;
    var rows := ActiveRows(SweptReservations(t, cfg, p));
    ActiveRowsAreValid(SweptReservations(t, cfg, p));
    assert ReferencePrice(Request(p.order), t.positions, p.supplied) == m.price(p.order.symbol);
    BitingLimitNeverClamps(Account(m.equity, false), t.positions, rows, Request(p.order), p.supplied, m.limits);
  }

  /** Adding a reservation whose full fill stays inside keeps every envelope inside. */
  lemma {:induction false} AddedRowIsSafe(t: Tables, u: Tables, m: Market, r: Reservation)
    requires Safe(t, m) && r.status == Active && r.size.raw >= 0
    requires u.positions == t.positions && u.reservations == t.reservations + [r]
    requires !r.reduceOnly ==>
               && Within(m, r.symbol, High(t, r.symbol) + (if r.side == Buy then r.size.raw else 0))
               && Within(m, r.symbol, Low(t, r.symbol) - (if r.side == Sell then r.size.raw else 0))
    ensures Safe(u, m)
  {
    hide Within, Reach;
    forall s ensures SymbolSafe(u, m, s) {
      assert SymbolSafe(t, m, s);
      ReachAppend(t.reservations, r, s, Buy);
      ReachAppend(t.reservations, r, s, Sell);
    }
  }

  lemma {:induction false} NewReservationShape(t: Tables, cfg: Config, p: Placement)
    ensures var r := NewReservation(t, cfg, p);
      && r.size == p.order.size && r.status == Active && r.symbol == p.order.symbol && r.side == p.order.side
      && r.reduceOnly == (p.order.reduceOnly || p.order.riskReducing)
  {
    hide ReferencePrice, Mul;
  }

  /** An orderly placement that goes out and may open exposure has passed the check. */
  lemma {:induction false} DispatchWasChecked(t: Tables, cfg: Config, m: Market, p: Placement)
    requires OrderlyPlacement(t, cfg, m, p) && Dispatches(t, cfg, p)
    requires !p.order.reduceOnly && !p.order.riskReducing
    ensures CheckRiskScope(Some(Account(m.equity, false)), t.positions, ActiveRows(SweptReservations(t, cfg, p)),
                           Request(p.order), Some(m.price(p.order.symbol)), m.limits) == Passed
    ensures !p.order.isSpot && NoClamp(t.positions, CheckedRows(t, cfg, p), Request(p.order), p.order.symbol)
  {
    hide CheckRiskScope, ActiveRows, SweptReservations, NoClamp, Opening;
  }

  lemma {:induction false} PlacementShape(t: Tables, cfg: Config, p: Placement)
    ensures var (after, outcome) := PersistPlacement(t, cfg, p);
      if outcome != Done then after == t
      else
        && after.positions == t.positions && after.account == t.account && p.order.size.raw > 0
        && after.reservations == (if Dispatches(t, cfg, p) then SweptReservations(t, cfg, p) + [NewReservation(t, cfg, p)]
                                  else SweptReservations(t, cfg, p))
  {
    hide Dispatches, SweptReservations, NewReservation, PlaceCommand;
  }

  /** Safety only looks at positions and reservations. */
  lemma {:induction false} SameTablesSameSafety(t: Tables, u: Tables, m: Market)
    requires Safe(t, m) && u.positions == t.positions && u.reservations == t.reservations
    ensures Safe(u, m)
  {
    hide Within, Reach;
    forall s ensures SymbolSafe(u, m, s) { assert SymbolSafe(t, m, s); }
  }

  lemma {:induction false} PlaceKeepsSafe(t: Tables, cfg: Config, m: Market, p: Placement)
    requires Priced(m) && Safe(t, m) && OrderlyPlacement(t, cfg, m, p)
    ensures Safe(PersistPlacement(t, cfg, p).0, m)
  {
    hide PersistPlacement, SweptReservations, NewReservation, Dispatches, CheckRiskScope, Within, Shrinks, Safe, Reach;
    var (after, outcome) := PersistPlacement(t, cfg, p);
    var rows, r := SweptReservations(t, cfg, p), NewReservation(t, cfg, p);
    var swept := t.(reservations := rows);
    SafeIsSized(t, m);
    PlacementShape(t, cfg, p);
    SweepShrinks(t, cfg, p);
    ShrinkKeepsSafe(t, swept, m);
    SafeIsSized(swept, m);
    if outcome == Done && !Dispatches(t, cfg, p) {
      SameTablesSameSafety(swept, after, m);
    } else if outcome == Done {
      NewReservationShape(t, cfg, p);
      if !r.reduceOnly {
        DispatchWasChecked(t, cfg, m, p);
        AdmittedEnvelope(t, rows, Request(p.order), m);
      }
      AddedRowIsSafe(swept, after, m, r);
    }
  }

  lemma {:induction false} SafeIsSized(t: Tables, m: Market)
    requires Safe(t, m)
    ensures Sized(t.reservations)
  {
  }

  // ------------------------------------------------------------------- fills

  /**
   A fill as the exchange and this ledger report it in order: it finds a perp order of the ledger, by exchange
   id or by a client id whose exchange id it brings, starts from the projected position, matches the order's
   active opening reservation, and is not larger than what is reserved.
   */
  ghost predicate OrderlyFill(t: Tables, f: Fill) {
    IngestFill(t, f).1 == Done ==>
      var (orders, i) := FindOrCreate(t.orders, f.target).value;
      && i < |t.orders| && !SpotCoin(f.target.coin) && !orders[i].isSpot
      && f.start == PositionSize(t.positions, t.orders[i].symbol)
      && var k := FindReservation(t.reservations, i);
         && k.Some?
         && var r := t.reservations[k.value];
            && r.status == Active && !r.reduceOnly
            && r.symbol == t.orders[i].symbol && r.side == f.target.side && f.size.raw <= r.size.raw
  }

  /** What an orderly fill does to positions and reservations. */
  ghost predicate MovedByFill(t: Tables, u: Tables, f: Fill, k: nat) {
    && k < |t.reservations|
    && var r := t.reservations[k];
       && r.status == Active && !r.reduceOnly && r.side == f.target.side && 0 < f.size.raw <= r.size.raw
       && (exists r' :: u.reservations == t.reservations[k := r'] && NoMore(r, r')
                        && r'.size.raw == r.size.raw - f.size.raw)
       && f.start == PositionSize(t.positions, r.symbol)
       && u.positions == UpsertPosition(t.positions, r.symbol, PositionAfterFill(f), f.price)
  }

  lemma {:induction false} FillResolves(t: Tables, f: Fill)
    requires IngestFill(t, f).1 == Done
    ensures FindOrCreate(t.orders, f.target).Some? && FillAllowed(f)
    ensures var (orders, i) := FindOrCreate(t.orders, f.target).value;
      var after := IngestFill(t, f).0;
      && i < |after.orders|
      && after.reservations == ConsumeReservation(t.reservations, i, f.size, after.orders[i].status)
      && after.positions == (if orders[i].isSpot || SpotCoin(f.target.coin) then t.positions
                             else UpsertPosition(t.positions, orders[i].symbol, PositionAfterFill(f), f.price))
  {
    hide FindOrCreate, UpsertPosition, ConsumeReservation, Mul, Div;
  }

  /** Adopting an exchange id leaves the symbol of the found order alone. */
  lemma {:induction false} FoundSymbol(orders: seq<OrderRow>, x: ExchangeRef)
    requires FindOrCreate(orders, x).Some? && FindOrCreate(orders, x).value.1 < |orders|
    ensures var (found, i) := FindOrCreate(orders, x).value; found[i].symbol == orders[i].symbol
  {
    hide FindByOid, FindByCloid;
  }

  lemma {:induction false} ConsumedIsNoMore(r: Reservation, size: Decimal, s: OrderStatus)
    requires r.status == Active && 0 < size.raw <= r.size.raw
    ensures var r' := ConsumedReservation(r, size, s); NoMore(r, r') && r'.size.raw == r.size.raw - size.raw
  {
    hide Mul, Div;
  }

  lemma {:induction false} FillMoves(t: Tables, f: Fill) returns (k: nat)
    requires OrderlyFill(t, f) && IngestFill(t, f).1 == Done
    ensures MovedByFill(t, IngestFill(t, f).0, f, k)
  {
    hide IngestFill, FindOrCreate, FindReservation, UpsertPosition, PositionSize, ConsumedReservation;
    var after := IngestFill(t, f).0;
    FillResolves(t, f);
    var i := FindOrCreate(t.orders, f.target).value.1;
    FoundSymbol(t.orders, f.target);
    k := FindReservation(t.reservations, i).value;
    ConsumedIsNoMore(t.reservations[k], f.size, after.orders[i].status);
    assert after.reservations == t.reservations[k := ConsumedReservation(t.reservations[k], f.size, after.orders[i].status)];
  }

  /** Filled size moves from the reservation to the position: both ends of every envelope move inwards. */
  lemma {:induction false} FillNarrows(t: Tables, u: Tables, f: Fill, k: nat, s: string)
    requires Sized(t.reservations) && MovedByFill(t, u, f, k)
    ensures Sized(u.reservations) && Narrows(t, u, s)
  {
    var r := t.reservations[k];
    var r' :| u.reservations == t.reservations[k := r'] && NoMore(r, r') && r'.size.raw == r.size.raw - f.size.raw;
    hide Reach;
    forall side ensures Reach(u.reservations, s, side) <= Reach(t.reservations, s, side)
                        - (if s == r.symbol && side == r.side then f.size.raw else 0)
    {
      ReachReplace(t.reservations, k, r', s, side);
      ReachOne(r, s, side);
      ReachOne(r', s, side);
      ReachIsNonNegative(u.reservations, s, side);
    }
    ReachIsNonNegative(u.reservations, s, Buy);
    ReachIsNonNegative(u.reservations, s, Sell);
    UpsertedSize(t.positions, r.symbol, PositionAfterFill(f), f.price, s);
    hide PositionSize;
    assert Low(t, s) <= Low(u, s);
    assert High(u, s) <= High(t, s);
  }

  lemma {:induction false} FillKeepsSafe(t: Tables, m: Market, f: Fill)
    requires Priced(m) && Safe(t, m) && OrderlyFill(t, f)
    ensures Safe(IngestFill(t, f).0, m)
  {
    hide IngestFill, SymbolSafe, PositionSize, UpsertPosition, Narrows, MovedByFill;
    var u := IngestFill(t, f).0;
    FillOnlyWhenDone(t, f);
    if IngestFill(t, f).1 == Done {
      var k := FillMoves(t, f);
      FillNarrows(t, u, f, k, "");
      forall s ensures SymbolSafe(u, m, s) {
        FillNarrows(t, u, f, k, s);
        NarrowKeepsSymbol(t, u, m, s);
      }
    }
  }

  lemma {:induction false} FillOnlyWhenDone(t: Tables, f: Fill)
    ensures IngestFill(t, f).1 != Done ==> IngestFill(t, f).0 == t
  {
    hide FindOrCreate, FilledRow, UpsertPosition, ConsumeReservation;
  }

  // -------------------------------------------------------------------- runs

  ghost predicate Orderly(t: Tables, cfg: Config, m: Market, s: Step) {
    match s
    case Place(p) => OrderlyPlacement(t, cfg, m, p)
    case TakeFill(f) => OrderlyFill(t, f)
    case _ => true
  }

  /** Transitions, cancel requests, imports and order updates move no position and reserve nothing. */
  lemma {:induction false} OtherStepsShrink(t: Tables, cfg: Config, s: Step)
    requires Sized(t.reservations) && !s.Place? && !s.TakeFill?
    ensures var u := Apply(t, cfg, s).0;
      u.positions == t.positions && Shrinks(t.reservations, u.reservations)
  {
    hide FindByCloid, FindByOid, FindOrCreate, MergeTransport, MergeReconciled, RowAllowed, UpdatedRow, TransferredCloid;
    hide CloseReservation;
    match s
    case Transit(x) =>
      var i := FindByCloid(t.orders, x.cloid);
      if i.Some? && MergeTransport(t.orders[i.value], x).Some? {
        CloseShrinks(t.reservations, i.value, MergeTransport(t.orders[i.value], x).value.status);
      }
    case RequestCancel(_, _, _) =>
    case Reconcile(x) =>
      var i := FindByCloid(t.orders, x.cloid);
      if i.None? { CloseShrinks(t.reservations, |t.orders|, x.status); }
      else { CloseShrinks(t.reservations, i.value, MergeReconciled(t.orders[i.value], x).status); }
    case TakeUpdate(u) =>
      var found := FindOrCreate(t.orders, u.target);
      if found.Some? { CloseShrinks(t.reservations, found.value.1, u.status); }
  }

  lemma {:induction false} StepKeepsSafe(t: Tables, cfg: Config, m: Market, s: Step)
    requires Priced(m) && Safe(t, m) && Orderly(t, cfg, m, s)
    ensures Safe(Apply(t, cfg, s).0, m)
  {
    hide PersistPlacement, PersistTransition, PersistCancelRequested, PersistReconciled, IngestFill, IngestOrderUpdate;
    SafeIsSized(t, m);
    hide Safe;
    match s
    case Place(p) => PlaceKeepsSafe(t, cfg, m, p);
    case TakeFill(f) => FillKeepsSafe(t, m, f);
    case _ =>
      OtherStepsShrink(t, cfg, s);
      ShrinkKeepsSafe(t, Apply(t, cfg, s).0, m);
  }

  ghost predicate OrderlyRun(t: Tables, cfg: Config, m: Market, steps: seq<Step>) {
    forall k | 0 <= k < |steps| :: Orderly(Run(t, cfg, steps[..k]), cfg, m, steps[k])
  }

  lemma {:induction false} RunKeepsSafe(t: Tables, cfg: Config, m: Market, steps: seq<Step>)
    requires Priced(m) && Safe(t, m) && OrderlyRun(t, cfg, m, steps)
    ensures Safe(Run(t, cfg, steps), m)
  {
    hide Safe, Apply, Orderly;
    if steps != [] {
      var front := steps[..|steps| - 1];
      assert OrderlyRun(t, cfg, m, front) by {
        forall k | 0 <= k < |front| ensures Orderly(Run(t, cfg, front[..k]), cfg, m, front[k]) {
          assert front[..k] == steps[..k];
        }
      }
      RunKeepsSafe(t, cfg, m, front);
      StepKeepsSafe(Run(t, cfg, front), cfg, m, steps[|steps| - 1]);
    }
  }

  /** The step puts a new opening reservation into the envelope. */
  ghost predicate Admits(t: Tables, cfg: Config, s: Step) {
    s.Place? && Apply(t, cfg, s).1 == Done && Dispatches(t, cfg, s.placement)
    && !s.placement.order.reduceOnly && !s.placement.order.riskReducing
  }

  /** A placement that admits nothing may still let reservations lapse. */
  lemma {:induction false} PlaceNarrows(t: Tables, cfg: Config, p: Placement, s: string)
    requires Sized(t.reservations) && !Admits(t, cfg, Place(p))
    ensures var u := PersistPlacement(t, cfg, p).0; Sized(u.reservations) && Narrows(t, u, s)
  {
    hide PersistPlacement, SweptReservations, NewReservation, Dispatches, Reach, Shrinks;
    var (u, outcome) := PersistPlacement(t, cfg, p);
    PlacementShape(t, cfg, p);
    NewReservationShape(t, cfg, p);
    SweepShrinks(t, cfg, p);
    var rows, r := SweptReservations(t, cfg, p), NewReservation(t, cfg, p);
    ShrunkIsSized(t.reservations, rows);
    ShrinkNarrows(t, t.(reservations := rows), s);
    ReachAppend(rows, r, s, Buy);
    ReachAppend(rows, r, s, Sell);
    ReachIsNonNegative(t.reservations, s, Buy);
    ReachIsNonNegative(t.reservations, s, Sell);
  }

  lemma {:induction false} StepNarrows(t: Tables, cfg: Config, m: Market, step: Step, s: string)
    requires Sized(t.reservations) && Orderly(t, cfg, m, step) && !Admits(t, cfg, step)
    ensures var u := Apply(t, cfg, step).0; Sized(u.reservations) && Narrows(t, u, s)
  {
    hide PersistPlacement, PersistTransition, PersistCancelRequested, PersistReconciled, IngestFill, IngestOrderUpdate;
    hide Narrows, Shrinks, MovedByFill;
    match step
    case Place(p) => PlaceNarrows(t, cfg, p, s);
    case TakeFill(f) =>
      FillOnlyWhenDone(t, f);
      if IngestFill(t, f).1 == Done {
        var k := FillMoves(t, f);
        FillNarrows(t, IngestFill(t, f).0, f, k, s);
      } else {
        SameNarrows(t, s);
      }
    case _ =>
      OtherStepsShrink(t, cfg, step);
      ShrunkIsSized(t.reservations, Apply(t, cfg, step).0.reservations);
      ShrinkNarrows(t, Apply(t, cfg, step).0, s);
  }

  lemma {:induction false} SameNarrows(t: Tables, s: string)
    requires Sized(t.reservations)
    ensures Narrows(t, t, s)
  {
    ReachIsNonNegative(t.reservations, s, Buy);
    ReachIsNonNegative(t.reservations, s, Sell);
  }

  /** Between admissions every envelope only shrinks, whatever fills, reports, imports and lapses happen. */
  lemma {:induction false} EnvelopesShrinkBetweenAdmissions(
    t: Tables, cfg: Config, m: Market, steps: seq<Step>, s: string)
    requires Sized(t.reservations) && OrderlyRun(t, cfg, m, steps)
    requires forall k | 0 <= k < |steps| :: !Admits(Run(t, cfg, steps[..k]), cfg, steps[k])
    ensures Sized(Run(t, cfg, steps).reservations) && Narrows(t, Run(t, cfg, steps), s)
  {
    hide Apply, Orderly, Admits, Sized, Reach, PositionSize;
    if steps == [] {
      SameNarrows(t, s);
    } else {
      var front := steps[..|steps| - 1];
      forall k | 0 <= k < |front|
        ensures Orderly(Run(t, cfg, front[..k]), cfg, m, front[k]) && !Admits(Run(t, cfg, front[..k]), cfg, front[k])
      {
        assert front[..k] == steps[..k];
      }
      EnvelopesShrinkBetweenAdmissions(t, cfg, m, front, s);
      StepNarrows(Run(t, cfg, front), cfg, m, steps[|steps| - 1], s);
    }
  }

  /**
   Position-limit run safety: in every state of an orderly run that starts inside the limit, each
   symbol's position valued at its reference price is within the position limit, and so is every
   position its unfilled opening reservations could still lead to.
   */
  lemma {:induction false} PositionNeverExceedsLimit(
    t: Tables, cfg: Config, m: Market, steps: seq<Step>, n: nat, s: string, reached: int)
    requires Priced(m) && Safe(t, m) && OrderlyRun(t, cfg, m, steps) && n <= |steps|
    requires var u := Run(t, cfg, steps[..n]); Low(u, s) <= reached <= High(u, s)
    ensures Within(m, s, reached)
    ensures Within(m, s, PositionSize(Run(t, cfg, steps[..n]).positions, s).raw)
  {
    var front := steps[..n];
    assert OrderlyRun(t, cfg, m, front) by {
      forall k | 0 <= k < |front| ensures Orderly(Run(t, cfg, front[..k]), cfg, m, front[k]) {
        assert front[..k] == steps[..k];
      }
    }
    hide Run, Orderly, Within, Reach, PositionSize;
    RunKeepsSafe(t, cfg, m, front);
    var u := Run(t, cfg, front);
    assert SymbolSafe(u, m, s);
    ReachIsNonNegative(u.reservations, s, Buy);
    ReachIsNonNegative(u.reservations, s, Sell);
    WithinBetween(m, s, Low(u, s), reached, High(u, s));
    WithinBetween(m, s, Low(u, s), PositionSize(u.positions, s).raw, High(u, s));
  }

  /** Within the limit, in exact integers: size times price is at most equity times the percentage, up to rounding. */
  lemma {:induction false} WithinMeans(m: Market, s: string, size: int)
    requires Within(m, s, size) && Value(Abs(size), m.price(s)) <= I128_MAX && m.price(s).raw >= 0
    ensures 2 * SCALE * Value(Abs(size), m.price(s)) <= 2 * (m.equity.raw * m.limits.maxPositionPct.raw) + SCALE
  {
    hide Mul, MulQuotient, Value, RoundsHalfAway;
    MulIsClampedValue(Decimal(Abs(size)), m.price(s));
    ValueIsMonotone(0, Abs(size), m.price(s));
    MulIsCorrectlyRounded(m.equity, m.limits.maxPositionPct);
    RoundedBound(m.equity.raw * m.limits.maxPositionPct.raw, MulQuotient(m.equity, m.limits.maxPositionPct),
                 Value(Abs(size), m.price(s)));
  }

  /** The same for every state of an orderly run and every position its opening reservations can still lead to. */
  lemma {:induction false} PositionNeverExceedsPercentage(
    t: Tables, cfg: Config, m: Market, steps: seq<Step>, n: nat, s: string, reached: int)
    requires Priced(m) && Safe(t, m) && OrderlyRun(t, cfg, m, steps) && n <= |steps|
    requires var u := Run(t, cfg, steps[..n]); Low(u, s) <= reached <= High(u, s)
    requires Value(Abs(reached), m.price(s)) <= I128_MAX
    ensures 2 * SCALE * Value(Abs(reached), m.price(s)) <= 2 * (m.equity.raw * m.limits.maxPositionPct.raw) + SCALE
  {
    hide Value, Within, Safe, OrderlyRun, Run, Low, High;
    PositionNeverExceedsLimit(t, cfg, m, steps, n, s, reached);
    WithinMeans(m, s, reached);
  }

  /** A database without positions and reservations is safe to start from. */
  lemma {:induction false} EmptyIsSafe(m: Market, account: Option<Account>)
    requires m.equity.raw >= 0 && m.limits.maxPositionPct.raw >= 0 && Priced(m)
    ensures Safe(EMPTY.(account := account), m)
  {
    forall s ensures SymbolSafe(EMPTY.(account := account), m, s) {
      MulByZero(m.price(s));
      MulNonNegative(m.equity, m.limits.maxPositionPct);
    }
  }
}
