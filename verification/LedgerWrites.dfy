/**
 What each ledger transaction writes, column by column: the order row, its reservation, the commands and the books.
 */
module LedgerWrites {
  import opened Arith
  import opened DecimalCore
  import opened Options
  import opened RiskAdmission
  import opened OrderLedger
  import CommandQueue
  import CommandLease

  /** Only the order at i changes, and its revision is the next one. */
  ghost predicate OnlyOrder(before: seq<OrderRow>, after: seq<OrderRow>, i: nat) {
    && i < |before| && |after| == |before| && after[i].revision == before[i].revision + 1
    && forall k | 0 <= k < |before| && k != i :: after[k] == before[k]
  }

  /** The order's active reservation is consumed by a filled status and released by any other terminal one. */
  ghost predicate ClosedFor(before: seq<Reservation>, after: seq<Reservation>, order: nat, status: OrderStatus) {
    && |after| == |before|
    && forall k | 0 <= k < |before| ::
         if FindReservation(before, order) == Some(k) && before[k].status == Active && status == Filled then
           after[k] == before[k].(status := Consumed)
         else if FindReservation(before, order) == Some(k) && before[k].status == Active
                 && status in {Cancelled, Rejected, Expired} then
           after[k] == before[k].(status := Released)
         else after[k] == before[k]
  }

  lemma {:induction false} CloseIs(rows: seq<Reservation>, order: nat, status: OrderStatus)
    ensures ClosedFor(rows, CloseReservation(rows, order, status), order, status)
  {
  }

  // ------------------------------------------------------- transport reports

  /** The report's status is taken unless the order has ended, or is partly filled and the report is behind that. */
  ghost predicate Behind(current: OrderStatus, reported: OrderStatus) {
    || current in {Filled, Cancelled, Rejected, Expired}
    || (current == PartialFill && reported in {Pending, Submitted, SubmitUnknown, Acknowledged})
  }

  lemma {:induction false} TransitionWrites(t: Tables, x: Transition, i: nat)
    requires FindByCloid(t.orders, x.cloid) == Some(i) && PersistTransition(t, x).1 == Done
    ensures var u := PersistTransition(t, x).0;
      && OnlyOrder(t.orders, u.orders, i)
      && var o, row := t.orders[i], u.orders[i];
         && row.status == (if Behind(o.status, x.status) then o.status else x.status)
         && row.filled.raw == Max(o.filled.raw, x.filled.raw)
         && row.error == x.error
         && row.oid == (if x.oid.Some? then x.oid else o.oid)
         && row.avg == (if x.avg.Some? then x.avg else o.avg)
         && row == o.(status := row.status, filled := row.filled, error := row.error, oid := row.oid, avg := row.avg,
                      revision := row.revision)
         && ClosedFor(t.reservations, u.reservations, i, row.status)
         && u.positions == t.positions && u.entries == t.entries && u.inbox == t.inbox
  {
    hide FindByCloid, ClosedFor, CloseReservation, CommandQueue.Settle;
    CloseIs(t.reservations, i, MergeTransport(t.orders[i], x).value.status);
  }

  /** The command a report names takes the reported status and is unlocked; all others stay. */
  lemma {:induction false} TransitionSettles(t: Tables, x: Transition, j: nat)
    requires PersistTransition(t, x).1 == Done && CommandQueue.UniqueIds(t.commands) && j < |t.commands|
    ensures var u := PersistTransition(t, x).0;
      && |u.commands| == |t.commands|
      && u.commands[j] ==
         if x.command.Some? && x.command.value.0 == t.commands[j].id
         then t.commands[j].(status := x.command.value.1, lockedAt := None, lockedBy := None) else t.commands[j]
  {
    hide FindByCloid, CloseReservation, MergeTransport, RowAllowed;
    if x.command.Some? {
      var target := CommandQueue.UpdateTarget(t.commands, x.command.value.0);
      if target.Some? && t.commands[j].id == x.command.value.0 { assert target.value == j; }
    }
  }

  // --------------------------------------------------------- cancel requests

  /** A first cancel request queues a cancel of that client id for the workers; a repeated one queues nothing. */
  lemma {:induction false} CancelWrites(t: Tables, cloid: string, command: nat, now: int, i: nat)
    requires FindByCloid(t.orders, cloid) == Some(i) && PersistCancelRequested(t, cloid, command, now).1 == Done
    ensures var u := PersistCancelRequested(t, cloid, command, now).0;
      && OnlyOrder(t.orders, u.orders, i) && u.orders[i] == t.orders[i].(revision := t.orders[i].revision + 1)
      && u.reservations == t.reservations && u.positions == t.positions
      && if exists j | 0 <= j < |t.commands| ::
              t.commands[j].actor == "execution_engine" && t.commands[j].key == "cancel:" + cloid
         then u.commands == t.commands
         else
           && |u.commands| == |t.commands| + 1 && u.commands[..|t.commands|] == t.commands
           && var row := u.commands[|t.commands|];
              && row.id == command && row.kind == CommandQueue.CancelOrder && row.status == CommandQueue.Pending
              && row.actor == "execution_engine" && row.key == "cancel:" + cloid
              && row.priority == 100 && row.createdAt == now && row.attempts == 0 && row.availableAt == now && row.lockedAt.None?
              && forall later, lease | later >= now :: CommandLease.Due(row, later, lease)
  {
    hide FindByCloid;
  }

  // ------------------------------------------------------------------ imports

  /** An import of a known order takes its status as it comes; the other columns only where it brings them. */
  lemma {:induction false} ImportWrites(t: Tables, x: OrderRow, i: nat)
    requires FindByCloid(t.orders, x.cloid) == Some(i) && PersistReconciled(t, x).1 == Done
    ensures var u := PersistReconciled(t, x).0;
      && OnlyOrder(t.orders, u.orders, i)
      && var o, row := t.orders[i], u.orders[i];
         && row.status == x.status
         && row.filled.raw == Max(o.filled.raw, x.filled.raw)
         && row.error == (if x.error.Some? then x.error else o.error)
         && row.oid == (if x.oid.Some? then x.oid else o.oid)
         && row.avg == (if x.avg.Some? then x.avg else o.avg)
         && row == o.(status := row.status, filled := row.filled, error := row.error, oid := row.oid, avg := row.avg,
                      revision := row.revision)
         && ClosedFor(t.reservations, u.reservations, i, x.status)
         && u.positions == t.positions && u.commands == t.commands
  {
    hide FindByCloid, ClosedFor, CloseReservation;
    CloseIs(t.reservations, i, x.status);
  }

  /** An import of an unknown order adds it as it comes, without its average price. */
  lemma {:induction false} ImportAdds(t: Tables, x: OrderRow)
    requires FindByCloid(t.orders, x.cloid).None? && PersistReconciled(t, x).1 == Done
    ensures var u := PersistReconciled(t, x).0;
      && u.orders == t.orders + [x.(avg := None, revision := 1)]
      && u.positions == t.positions && u.commands == t.commands
  {
    hide FindByCloid, CloseReservation;
  }

  // ------------------------------------------------------------ exchange facts

  /** The order projected for an unknown exchange order: open, unfilled, with what the payload says of it. */
  lemma {:induction false} ProjectedColumns(x: ExchangeRef)
    ensures var o := ProjectedRow(x);
      && o.oid == Some(x.oid) && o.side == x.side && o.status == Acknowledged && o.filled == ZERO && o.avg.None?
      && o.cloid == (if |x.cloid| == 34 && x.cloid[..2] == "0x" then x.cloid else x.synthetic)
      && o.symbol == (if x.coin == "" then "UNKNOWN" else x.coin)
      && (o.isSpot <==> x.coin != "" && x.coin[0] == '@')
      && o.size.raw == (if x.size.Some? && x.size.value.raw > 0 then x.size.value.raw else 1)
      && o.price == (if x.price.Some? && x.price.value.raw > 0 then x.price else None)
      && !o.reduceOnly && !o.riskReducing && o.strategy.None? && o.error.None?
      && RowAllowed(o)
  {
  }

  /** Exchange ids need not be unique: the earliest order that has the id is the one found. */
  lemma {:induction false} EarliestWithOid(orders: seq<OrderRow>, oid: string, k: nat)
    requires k < |orders| && orders[k].oid == Some(oid)
    ensures FindByOid(orders, oid).Some? && FindByOid(orders, oid).value <= k
  {
    if k < |orders| - 1 { EarliestWithOid(orders[..|orders| - 1], oid, k); }
  }

  /** The first order with the client id, if the payload names one in the canonical form. */
  ghost function NamedBy(orders: seq<OrderRow>, x: ExchangeRef): Option<nat> {
    if |x.cloid| == 34 && x.cloid[..2] == "0x" then FindByCloid(orders, x.cloid) else None
  }

  /**
   The order a fact belongs to: the one with its exchange id; else the one it names by client id, which adopts the
   exchange id, unless it has another one or would become a reduce-only spot order; else a projected one, unless its
   client id is taken.
   */
  lemma {:induction false} FoundOrCreated(orders: seq<OrderRow>, x: ExchangeRef)
    ensures var found, byOid, byCloid := FindOrCreate(orders, x), FindByOid(orders, x.oid), NamedBy(orders, x);
      && (byOid.Some? ==> found == Some((orders, byOid.value)))
      && (byOid.None? && byCloid.Some? && orders[byCloid.value].oid.Some? ==> found.None?)
      && (byOid.None? && byCloid.Some? && orders[byCloid.value].oid.None? && RowAllowed(orders[byCloid.value]) ==>
            if orders[byCloid.value].reduceOnly && SpotCoin(x.coin) then found.None? else
            found == Some((orders[byCloid.value :=
                             orders[byCloid.value].(oid := Some(x.oid), isSpot := SpotCoin(x.coin))], byCloid.value)))
      && (byOid.None? && byCloid.None? ==>
            if FindByCloid(orders, ProjectedRow(x).cloid).Some? then found.None?
            else found == Some((orders + [ProjectedRow(x)], |orders|)))
  {
    hide FindByOid, FindByCloid;
  }

  /** What an ingested fill books: one fill row, the profit and the fee as a debit, and its external id. */
  lemma {:induction false} FillBooks(t: Tables, f: Fill)
    requires IngestFill(t, f).1 == Done && FindOrCreate(t.orders, f.target).Some?
    ensures var u := IngestFill(t, f).0;
      && f.externalId !in t.inbox && f.size.raw > 0 && f.price.raw > 0
      && u.inbox == t.inbox + {f.externalId}
      && u.fills == t.fills + [FillRow(f.externalId, FindOrCreate(t.orders, f.target).value.1, f.size, f.price)]
      && |u.entries| == |t.entries| + 2 && u.entries[..|t.entries|] == t.entries
      && u.entries[|t.entries|] == EntryRow(f.externalId, RealizedPnl, f.pnl)
      && u.entries[|t.entries| + 1].externalId == f.externalId && u.entries[|t.entries| + 1].kind == Fee
      && u.entries[|t.entries| + 1].amount.raw == ClampI128(0 - f.fee.raw)
      && u.commands == t.commands
  {
    hide FindOrCreate, FilledRow, UpsertPosition, ConsumeReservation;
  }

  /** Position rows after an upsert: the symbol's row has the size and the mark, a new one if there was none. */
  ghost predicate Upserted(before: seq<PositionRow>, after: seq<PositionRow>, symbol: string, size: Decimal, mark: Decimal) {
    if forall i | 0 <= i < |before| :: before[i].symbol != symbol
    then after == before + [PositionRow(symbol, size, Some(mark))]
    else
      && |after| == |before|
      && exists k | 0 <= k < |before| ::
           && before[k].symbol == symbol && after[k] == PositionRow(symbol, size, Some(mark))
           && forall i | 0 <= i < |before| && i != k :: after[i] == before[i]
  }

  lemma {:induction false} UpsertIs(rows: seq<PositionRow>, symbol: string, size: Decimal, mark: Decimal)
    ensures Upserted(rows, UpsertPosition(rows, symbol, size, mark), symbol, size, mark)
  {
    var at := FindPositionIndex(rows, symbol);
    if at.Some? { assert rows[at.value].symbol == symbol; }
  }

  /** The position rows after a fill of a perp order: where the exchange said it started, moved by the fill. */
  lemma {:induction false} FillMovesPosition(t: Tables, f: Fill)
    requires IngestFill(t, f).1 == Done && FindOrCreate(t.orders, f.target).Some?
    ensures var (orders, i) := FindOrCreate(t.orders, f.target).value;
      var u := IngestFill(t, f).0;
      if orders[i].isSpot || SpotCoin(f.target.coin) then u.positions == t.positions
      else Upserted(t.positions, u.positions, orders[i].symbol,
             Decimal(ClampI128(if f.target.side == Buy then f.start.raw + f.size.raw else f.start.raw - f.size.raw)),
             f.price)
  {
    hide FindOrCreate, Mul, Div, UpsertPosition, ConsumeReservation, Upserted;
    var (orders, i) := FindOrCreate(t.orders, f.target).value;
    UpsertIs(t.positions, orders[i].symbol, PositionAfterFill(f), f.price);
  }

  /** The client id an order carries after an update: the one the update names in canonical form, else its own. */
  lemma {:induction false} TransferredIs(orders: seq<OrderRow>, i: nat, cloid: string)
    requires i < |orders| && forall k | 0 <= k < |orders| && k != i :: orders[k].cloid != orders[i].cloid
    ensures var named := |cloid| == 34 && cloid[..2] == "0x";
      TransferredCloid(orders, i, cloid) ==
        if !named || cloid == orders[i].cloid then Some(orders[i].cloid)
        else if exists k | 0 <= k < |orders| :: orders[k].cloid == cloid then None
        else Some(cloid)
  {
  }

  /**
   An order update overwrites side, and symbol, size and price where it brings them; it takes the event's status
   unless the order is filled and the event another end, or the order has ended and the event is not an end. The
   reservation is closed by the event's status.
   */
  lemma {:induction false} UpdateWrites(t: Tables, x: OrderUpdate)
    requires IngestOrderUpdate(t, x).1 == Done && FindOrCreate(t.orders, x.target).Some?
    ensures var (orders, i) := FindOrCreate(t.orders, x.target).value;
      var u := IngestOrderUpdate(t, x).0;
      && OnlyOrder(orders, u.orders, i) && u.inbox == t.inbox + {x.externalId} && x.externalId !in t.inbox
      && ClosedFor(t.reservations, u.reservations, i, x.status)
      && u.positions == t.positions && u.commands == t.commands && u.fills == t.fills && u.entries == t.entries
      && var o, row := orders[i], u.orders[i];
         && row.side == x.target.side
         && row.symbol == (if x.target.coin != "" then x.target.coin else o.symbol)
         && row.size == (if x.target.size.Some? then x.target.size.value else o.size)
         && row.price == (if x.limit.Some? && x.limit.value.raw > 0 then x.limit else o.price)
         && TransferredCloid(orders, i, x.target.cloid) == Some(row.cloid)
         && row.status == (if o.status == Filled && x.status in {Cancelled, Rejected, Expired} then o.status
                           else if o.status in {Filled, Cancelled, Rejected, Expired}
                                   && x.status !in {Filled, Cancelled, Rejected, Expired} then o.status
                           else x.status)
         && row == o.(side := row.side, symbol := row.symbol, size := row.size, price := row.price, cloid := row.cloid,
                      status := row.status, revision := row.revision)
  {
    hide FindOrCreate, TransferredCloid, ClosedFor, CloseReservation, RowAllowed;
    CloseIs(t.reservations, FindOrCreate(t.orders, x.target).value.1, x.status);
  }

  // ------------------------------------------------------ what commits, and what is logged

  /** The constraints of the order table, in terms of its columns. */
  lemma {:induction false} RowsKeepConstraints(o: OrderRow)
    ensures RowAllowed(o) <==>
      && 0 < o.size.raw && 0 <= o.filled.raw <= o.size.raw && !(o.isSpot && o.reduceOnly)
      && (o.price.Some? ==> 0 < o.price.value.raw)
  {
  }

  /** A report commits exactly if it names a known order and no other exchange id, and does not overfill the order. */
  lemma {:induction false} TransitionCommitsIff(t: Tables, x: Transition)
    requires forall o <- t.orders :: RowAllowed(o)
    ensures var at := FindByCloid(t.orders, x.cloid);
      && (at.None? ==> PersistTransition(t, x).1 == Aborted)
      && (at.Some? ==>
            var o := t.orders[at.value];
            PersistTransition(t, x).1 ==
              if (x.oid.Some? && o.oid.Some? && x.oid.value != o.oid.value) || x.filled.raw > o.size.raw
              then Aborted else Done)
  {
    hide FindByCloid, CloseReservation, CommandQueue.Settle;
    var at := FindByCloid(t.orders, x.cloid);
    if at.Some? { assert t.orders[at.value] in t.orders; }
  }

  /** A cancel request of a known order commits unless its command needs an id that is taken. */
  lemma {:induction false} CancelCommitsIff(t: Tables, cloid: string, command: nat, now: int)
    ensures var queued := exists c <- t.commands :: c.actor == "execution_engine" && c.key == "cancel:" + cloid;
      PersistCancelRequested(t, cloid, command, now).1 ==
        if FindByCloid(t.orders, cloid).Some? && (queued || forall c <- t.commands :: c.id != command)
        then Done else Aborted
  {
    hide FindByCloid;
    var row := CancelCommand(cloid, command, now);
    assert (exists i | 0 <= i < |t.commands| :: CommandQueue.KeyTaken(t.commands[i], row)) <==>
      exists c <- t.commands :: c.actor == "execution_engine" && c.key == "cancel:" + cloid;
  }

  /** An import commits exactly if the row it leads to is allowed. */
  lemma {:induction false} ImportCommitsIff(t: Tables, x: OrderRow)
    requires forall o <- t.orders :: RowAllowed(o)
    ensures var at := FindByCloid(t.orders, x.cloid);
      PersistReconciled(t, x).1 ==
        if (at.None? && !RowAllowed(x)) || (at.Some? && x.filled.raw > t.orders[at.value].size.raw) then Aborted else Done
  {
    hide FindByCloid, CloseReservation;
    var at := FindByCloid(t.orders, x.cloid);
    if at.Some? { assert t.orders[at.value] in t.orders; }
  }

  /** A fill is a duplicate exactly by its external id; else it commits if it finds an allowed order and is positive. */
  lemma {:induction false} FillCommitsIff(t: Tables, f: Fill)
    ensures var found := FindOrCreate(t.orders, f.target);
      IngestFill(t, f).1 ==
        if f.externalId in t.inbox then Duplicate
        else if found.Some? && f.size.raw > 0 && f.price.raw > 0
                && var o := found.value.0[found.value.1]; RowAllowed(o.(isSpot := o.isSpot || SpotCoin(f.target.coin)))
        then Done else Aborted
  {
    hide FindOrCreate, FilledRow, UpsertPosition, ConsumeReservation;
  }

  /** An update is a duplicate exactly by its external id; else it commits if the client id is free and the row allowed. */
  lemma {:induction false} UpdateCommitsIff(t: Tables, x: OrderUpdate)
    ensures var found := FindOrCreate(t.orders, x.target);
      IngestOrderUpdate(t, x).1 ==
        if x.externalId in t.inbox then Duplicate
        else if found.None? then Aborted else
        var (orders, i) := found.value;
        var o := orders[i];
        var size := if x.target.size.Some? then x.target.size.value else o.size;
        var price := if x.limit.Some? && x.limit.value.raw > 0 then x.limit else o.price;
        if TransferredCloid(orders, i, x.target.cloid).Some? && RowAllowed(o.(size := size, price := price))
        then Done else Aborted
  {
    hide FindOrCreate, TransferredCloid, CloseReservation;
  }

  /** The events a committed step logs: the event log's and the outbox's. */
  ghost function EventsOf(s: Step, sent: bool): (string, string) {
    match s
    case Place(_) => if sent then ("submitted", "order.submitted") else ("rejected", "order.rejected")
    case Transit(x) => (x.event, "order." + x.event)
    case RequestCancel(_, _, _) => ("cancel_requested", "order.cancel_requested")
    case Reconcile(_) => ("reconciled_import", "order.reconciled_import")
    case TakeFill(_) => ("exchange_fill", "exchange.fill.ingested")
    case TakeUpdate(_) => ("exchange_order_update", "exchange.order.updated")
  }

  /** One row more in the event log and in the outbox, with the new revision of the one order that was written. */
  ghost predicate LogsOne(t: Tables, u: Tables, event: string, outboxEvent: string) {
    && |u.events| == |t.events| + 1 && u.events[..|t.events|] == t.events
    && |u.outbox| == |t.outbox| + 1 && u.outbox[..|t.outbox|] == t.outbox
    && var e, x := u.events[|t.events|], u.outbox[|t.outbox|];
       && e.order < |u.orders| && e == LogRow(e.order, u.orders[e.order].revision, event)
       && x == LogRow(e.order, e.revision, outboxEvent)
       && forall k | 0 <= k < |t.orders| && k != e.order && k < |u.orders| ::
            u.orders[k].revision == t.orders[k].revision
  }

  lemma {:induction false} PlacementLogs(t: Tables, cfg: Config, p: Placement)
    requires PersistPlacement(t, cfg, p).1 == Done
    ensures var u, event := PersistPlacement(t, cfg, p).0, if Dispatches(t, cfg, p) then "submitted" else "rejected";
      LogsOne(t, u, event, "order." + event)
  {
    hide FindByCloid, RowAllowed, Dispatches, PlacedRow, NewReservation, SweptReservations;
  }

  lemma {:induction false} FillLogs(t: Tables, f: Fill)
    requires IngestFill(t, f).1 == Done
    ensures LogsOne(t, IngestFill(t, f).0, "exchange_fill", "exchange.fill.ingested")
  {
    hide FindOrCreate, FilledRow, UpsertPosition, ConsumeReservation, RowAllowed;
    FoundKeepsRevisions(t.orders, f.target);
  }

  lemma {:induction false} UpdateLogs(t: Tables, x: OrderUpdate)
    requires IngestOrderUpdate(t, x).1 == Done
    ensures LogsOne(t, IngestOrderUpdate(t, x).0, "exchange_order_update", "exchange.order.updated")
  {
    hide FindOrCreate, TransferredCloid, CloseReservation, RowAllowed, UpdatedRow;
    FoundKeepsRevisions(t.orders, x.target);
  }

  lemma {:induction false} ReportLogs(t: Tables, cfg: Config, s: Step)
    requires Apply(t, cfg, s).1 == Done && (s.Transit? || s.RequestCancel? || s.Reconcile?)
    ensures LogsOne(t, Apply(t, cfg, s).0, EventsOf(s, false).0, EventsOf(s, false).1)
  {
    hide FindByCloid, CloseReservation, RowAllowed, MergeReconciled, CommandQueue.Settle, CommandQueue.InsertOnce;
  }

  /** Every committed transaction logs one event, of the order it wrote. */
  lemma {:induction false} OneEventEach(t: Tables, cfg: Config, s: Step)
    requires Apply(t, cfg, s).1 == Done
    ensures var events := EventsOf(s, s.Place? && Dispatches(t, cfg, s.placement));
      LogsOne(t, Apply(t, cfg, s).0, events.0, events.1)
  {
    hide PersistPlacement, PersistTransition, PersistCancelRequested, PersistReconciled, IngestFill, IngestOrderUpdate;
    hide LogsOne, Dispatches;
    match s
    case Place(p) =>
      PlacementLogs(t, cfg, p);
      assert "order." + "submitted" == "order.submitted" && "order." + "rejected" == "order.rejected";
    case Transit(_) => ReportLogs(t, cfg, s);
    case RequestCancel(_, _, _) => ReportLogs(t, cfg, s);
    case Reconcile(_) => ReportLogs(t, cfg, s);
    case TakeFill(f) => FillLogs(t, f);
    case TakeUpdate(x) => UpdateLogs(t, x);
  }

  lemma {:induction false} FoundKeepsRevisions(orders: seq<OrderRow>, x: ExchangeRef)
    requires FindOrCreate(orders, x).Some?
    ensures var found := FindOrCreate(orders, x).value.0;
      && |orders| <= |found| && forall k | 0 <= k < |orders| :: found[k].revision == orders[k].revision
  {
    hide FindByOid, FindByCloid;
  }

  /** The check sees each active reservation with its own columns. */
  lemma {:induction false} CheckSeesActive(rows: seq<Reservation>, x: ReservationRow)
    ensures x in ActiveRows(rows) <==> exists r <- rows ::
      && r.status == Active
      && x.symbol == r.symbol && x.side == r.side && x.reduceOnly == r.reduceOnly
      && x.size == r.size && x.notional == r.notional
  {
    if rows != [] {
      var front, last := rows[..|rows| - 1], rows[|rows| - 1];
      CheckSeesActive(front, x);
      assert rows == front + [last];
    }
  }
}
