/**
 The transactions as they update the tables, each proved to leave exactly the tables of its
 specification in OrderLedger and to report the same outcome.
 */
module LedgerStore {
  import opened DecimalCore
  import opened Options
  import opened RiskAdmission
  import opened OrderLedger
  import CommandQueue

  class Database {
    var account: Option<Account>
    var orders: seq<OrderRow>
    var reservations: seq<Reservation>
    var positions: seq<PositionRow>
    var commands: seq<CommandQueue.CommandRow>
    var events: seq<LogRow>
    var outbox: seq<LogRow>
    var fills: seq<FillRow>
    var entries: seq<EntryRow>
    var inbox: set<string>

    function State(): Tables
      reads this
    {
      Tables(account, orders, reservations, positions, commands, events, outbox, fills, entries, inbox)
    }

    constructor (account: Option<Account>)
      ensures State() == EMPTY.(account := account)
    {
      this.account := account;
      orders, reservations, positions, commands := [], [], [], [];
      events, outbox, fills, entries, inbox := [], [], [], [], {};
    }

    /** Write an order row at its next revision and append that revision to the event log and the outbox. */
    method Save(order: nat, row: OrderRow, event: string, outboxEvent: string)
      requires order < |orders|
      modifies this
      ensures State() == Record(old(State()), order, row, event, outboxEvent)
    {
      var revision := orders[order].revision + 1;
      orders := orders[order := row.(revision := revision)];
      events := events + [LogRow(order, revision, event)];
      outbox := outbox + [LogRow(order, revision, outboxEvent)];
    }

    method SaveNew(row: OrderRow, event: string, outboxEvent: string)
      modifies this
      ensures State() == RecordNew(old(State()), row, event, outboxEvent)
    {
      events := events + [LogRow(|orders|, 1, event)];
      outbox := outbox + [LogRow(|orders|, 1, outboxEvent)];
      orders := orders + [row.(revision := 1)];
    }

    /** Sweep expired reservations of ended orders. */
    method ExpireReservations(now: int)
      modifies this`reservations
      ensures reservations == LapseAll(old(reservations), orders, now)
    {
      for i := 0 to |reservations|
        invariant |reservations| == |old(reservations)|
        invariant forall j | 0 <= j < i :: reservations[j] == Lapse(old(reservations)[j], orders, now)
        invariant forall j | i <= j < |reservations| :: reservations[j] == old(reservations)[j]
      {
        reservations := reservations[i := Lapse(reservations[i], orders, now)];
      }
    }

    method Close(order: nat, s: OrderStatus)
      modifies this`reservations
      ensures reservations == CloseReservation(old(reservations), order, s)
    {
      var i := FindReservation(reservations, order);
      if i.Some? && reservations[i.value].status == Active && ClosedBy(s).Some? {
        reservations := reservations[i.value := reservations[i.value].(status := ClosedBy(s).value)];
      }
    }

    /** The check inside the placement transaction, after sweeping what has lapsed. */
    method AssessPlacement(cfg: Config, p: Placement) returns (row: OrderRow, goes: bool)
      modifies this`reservations
      ensures reservations == SweptReservations(old(State()), cfg, p)
      ensures row == PlacedRow(old(State()), cfg, p) && goes == Dispatches(old(State()), cfg, p)
    {
      hide CheckRiskScope, ActiveRows, ReasonText;
      row, goes := p.order.(oid := None, avg := None), p.dispatch;
      if p.dispatch && p.riskPassed && cfg.limits.Some? {
        if account.Some? && !account.value.stale { ExpireReservations(p.now); }
        var verdict := CheckAndLockRiskScope(
          account, positions, ActiveRows(reservations), Request(p.order), p.supplied, cfg.limits.value);
        if verdict.Failed? {
          goes := false;
          row := row.(status := Rejected, error := Some(ReasonText(verdict.reason)));
        }
      }
    }

    /** Idempotency, risk check, order row, command, reservation and logs of one placement. */
    method Place(cfg: Config, p: Placement) returns (outcome: Outcome)
      modifies this
      ensures (State(), outcome) == PersistPlacement(old(State()), cfg, p)
    {
      hide FindByCloid, SweptReservations, PlacedRow, Dispatches, RowAllowed, Mul, ReferencePrice;
      hide CommandQueue.InsertCommand, CommandQueue.NewCommand;
      var existing := FindByCloid(orders, p.order.cloid);
      if existing.Some? {
        return if orders[existing.value].status == Rejected then DuplicateRejected else Duplicate;
      }
      var before := reservations;
      var row, goes := AssessPlacement(cfg, p);
      var price := ReferencePrice(Request(p.order), positions, p.supplied);
      var reservation := Reservation(
        |orders|, p.order.symbol, p.order.side, p.order.reduceOnly || p.order.riskReducing,
        p.order.size, Mul(p.order.size, price), Active, p.now + cfg.ttl);
      var inserted := CommandQueue.InsertCommand(commands, CommandQueue.NewCommand(
        p.command, CommandQueue.PlaceOrder,
        if p.order.strategy.Some? then p.order.strategy.value else "execution_engine", p.order.cloid,
        if goes then CommandQueue.Pending else CommandQueue.Failed, p.now));
      if !RowAllowed(row) || inserted.None? || (goes && reservation.notional.raw < 0) {
        reservations := before;
        return Aborted;
      }
      commands := inserted.value;
      if goes { reservations := reservations + [reservation]; }
      var event := if goes then "submitted" else "rejected";
      SaveNew(row, event, "order." + event);
      outcome := Done;
    }

    /** Merge a transport report into an order, field by field; None is a conflicting exchange id. */
    static method MergeReport(o: OrderRow, x: OrderLedger.Transition) returns (r: Option<OrderRow>)
      ensures r == MergeTransport(o, x)
    {
      var merged := o;
      if x.oid.Some? && merged.oid.Some? && merged.oid != x.oid { return None; }
      if x.oid.Some? { merged := merged.(oid := x.oid); }
      if !Terminal(o.status) && !(o.status == PartialFill && BelowPartialFill(x.status)) {
        merged := merged.(status := x.status);
      }
      merged := merged.(error := x.error);
      if x.filled.raw > merged.filled.raw { merged := merged.(filled := x.filled); }
      if x.avg.Some? { merged := merged.(avg := x.avg); }
      r := Some(merged);
    }

    method Transition(x: OrderLedger.Transition) returns (outcome: Outcome)
      modifies this
      ensures (State(), outcome) == PersistTransition(old(State()), x)
    {
      hide FindByCloid, MergeTransport, RowAllowed, CloseReservation, CommandQueue.Settle;
      var at := FindByCloid(orders, x.cloid);
      if at.None? { return Aborted; }
      var merged := MergeReport(orders[at.value], x);
      if merged.None? || !RowAllowed(merged.value) { return Aborted; }
      match x.command {
        case None =>
        case Some((id, status)) => commands := CommandQueue.Settle(commands, id, status);
      }
      Close(at.value, merged.value.status);
      Save(at.value, merged.value, x.event, "order." + x.event);
      outcome := Done;
    }

    method RequestCancel(cloid: string, command: nat, now: int) returns (outcome: Outcome)
      modifies this
      ensures (State(), outcome) == PersistCancelRequested(old(State()), cloid, command, now)
    {
      hide FindByCloid, CommandQueue.InsertOnce;
      var at := FindByCloid(orders, cloid);
      if at.None? { return Aborted; }
      var inserted := CommandQueue.InsertOnce(commands, CancelCommand(cloid, command, now));
      if inserted.None? { return Aborted; }
      commands := inserted.value;
      Save(at.value, orders[at.value], "cancel_requested", "order.cancel_requested");
      outcome := Done;
    }

    static method MergeImport(o: OrderRow, x: OrderRow) returns (merged: OrderRow)
      ensures merged == MergeReconciled(o, x)
    {
      merged := o.(status := x.status);
      if x.oid.Some? { merged := merged.(oid := x.oid); }
      if x.filled.raw > merged.filled.raw { merged := merged.(filled := x.filled); }
      if x.avg.Some? { merged := merged.(avg := x.avg); }
      if x.error.Some? { merged := merged.(error := x.error); }
    }

    method Reconcile(x: OrderRow) returns (outcome: Outcome)
      modifies this
      ensures (State(), outcome) == PersistReconciled(old(State()), x)
    {
      hide FindByCloid, MergeReconciled, RowAllowed, CloseReservation;
      var at := FindByCloid(orders, x.cloid);
      if at.None? {
        if !RowAllowed(x) { return Aborted; }
        Close(|orders|, x.status);
        SaveNew(x.(avg := None), "reconciled_import", "order.reconciled_import");
        return Done;
      }
      var merged := MergeImport(orders[at.value], x);
      if !RowAllowed(merged) { return Aborted; }
      Close(at.value, merged.status);
      Save(at.value, merged, "reconciled_import", "order.reconciled_import");
      outcome := Done;
    }

    /** Cap the filled size, weigh the average price and settle the status of one fill. */
    static method ApplyFillToOrder(o: OrderRow, size: Decimal, price: Decimal) returns (order: OrderRow)
      requires o.filled.raw >= 0 && size.raw > 0
      ensures order == FilledRow(o, size, price)
    {
      hide Mul, Div;
      var total := Add(o.filled, size);
      var previous := if o.avg.Some? then o.avg.value else price;
      var numerator := Add(Mul(o.filled, previous), Mul(size, price));
      order := o.(filled := MinD(o.size, total));
      if order.filled.raw > 0 { order := order.(avg := Some(Div(numerator, total))); }
      if order.filled.raw >= order.size.raw {
        order := order.(status := Filled);
      } else if order.status !in {Cancelled, Rejected, Expired} {
        order := order.(status := PartialFill);
      }
    }

    /** Claim the inbox id, apply the fill to order, reservation and position, book it, then log it. */
    method TakeFill(f: Fill) returns (outcome: Outcome)
      modifies this
      ensures (State(), outcome) == IngestFill(old(State()), f)
    {
      hide FindOrCreate, FilledRow, ConsumeReservation, UpsertPosition, PositionAfterFill, SpotCoin, Neg;
      if f.externalId in inbox { return Duplicate; }
      var found := FindOrCreate(orders, f.target);
      if found.None? { return Aborted; }
      var (table, i) := found.value;
      var order := table[i].(isSpot := table[i].isSpot || SpotCoin(f.target.coin));
      if !FillAllowed(f) || !RowAllowed(order) { return Aborted; }
      inbox := inbox + {f.externalId};
      orders := table;
      fills := fills + [FillRow(f.externalId, i, f.size, f.price)];
      var row := ApplyFillToOrder(order, f.size, f.price);
      reservations := ConsumeReservation(reservations, i, f.size, row.status);
      if !order.isSpot { positions := UpsertPosition(positions, row.symbol, PositionAfterFill(f), f.price); }
      entries := entries + [EntryRow(f.externalId, RealizedPnl, f.pnl), EntryRow(f.externalId, Fee, Neg(f.fee))];
      Save(i, row, "exchange_fill", "exchange.fill.ingested");
      outcome := Done;
    }

    static method ApplyUpdate(o: OrderRow, u: OrderUpdate, cloid: string) returns (order: OrderRow)
      ensures order == UpdatedRow(o, u, cloid)
    {
      order := o.(cloid := cloid, side := u.target.side);
      if u.target.coin != "" { order := order.(symbol := u.target.coin); }
      if u.target.size.Some? { order := order.(size := u.target.size.value); }
      if u.limit.Some? && u.limit.value.raw > 0 { order := order.(price := u.limit); }
      var prevented := order.status == Filled && Terminal(u.status) && u.status != Filled;
      if !prevented && (!Terminal(order.status) || Terminal(u.status)) { order := order.(status := u.status); }
    }

    method TakeUpdate(u: OrderUpdate) returns (outcome: Outcome)
      modifies this
      ensures (State(), outcome) == IngestOrderUpdate(old(State()), u)
    {
      hide FindOrCreate, TransferredCloid, UpdatedRow, RowAllowed, CloseReservation;
      if u.externalId in inbox { return Duplicate; }
      var found := FindOrCreate(orders, u.target);
      if found.None? { return Aborted; }
      var (table, i) := found.value;
      var cloid := TransferredCloid(table, i, u.target.cloid);
      if cloid.None? { return Aborted; }
      var order := ApplyUpdate(table[i], u, cloid.value);
      if !RowAllowed(order) { return Aborted; }
      inbox := inbox + {u.externalId};
      orders := table;
      Close(i, u.status);
      Save(i, order, "exchange_order_update", "exchange.order.updated");
      outcome := Done;
    }
  }
}
