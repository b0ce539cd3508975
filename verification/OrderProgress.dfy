/**
 What no transaction undoes: filled sizes and revisions only grow, rows keep the table's constraints,
 and a terminal status is left in exactly two ways.
 */
module OrderProgress {
  import opened Arith
  import opened DecimalCore
  import opened Options
  import opened RiskAdmission
  import opened OrderLedger
  import opened ReservationConservation

  ghost predicate RowsAllowed(orders: seq<OrderRow>) {
    forall i | 0 <= i < |orders| :: RowAllowed(orders[i])
  }

  /** The later row of the same order. */
  ghost predicate Advances(a: OrderRow, b: OrderRow) {
    a.filled.raw <= b.filled.raw && a.revision <= b.revision && b.strategy == a.strategy && b.reduceOnly == a.reduceOnly
  }

  ghost predicate OrdersAdvance(a: seq<OrderRow>, b: seq<OrderRow>) {
    |a| <= |b| && RowsAllowed(b) && forall i | 0 <= i < |a| :: Advances(a[i], b[i])
  }

  // ----------------------------------------------------------- row functions

  /** A transport report keeps terminal statuses and partial fills, and never lowers the filled size. */
  lemma {:induction false} TransportKeepsProgress(o: OrderRow, x: Transition)
    ensures MergeTransport(o, x).None? <==> x.oid.Some? && o.oid.Some? && o.oid != x.oid
    ensures MergeTransport(o, x).Some? ==>
      var m := MergeTransport(o, x).value;
      && Advances(o, m) && m.filled.raw == Max(o.filled.raw, x.filled.raw)
      && (Terminal(o.status) ==> m.status == o.status)
      && (o.status == PartialFill ==> !BelowPartialFill(m.status))
      && (o.oid.Some? ==> m.oid == o.oid)
      && (m.status == o.status || m.status == x.status)
  {
  }

  /** A fill moves the filled size up to the order's size at most, and completes the order exactly there. */
  lemma {:induction false} FillKeepsProgress(o: OrderRow, size: Decimal, price: Decimal)
    requires RowAllowed(o) && size.raw > 0
    ensures var f := FilledRow(o, size, price);
      && Advances(o, f) && RowAllowed(f)
      && o.filled.raw + size.raw >= f.filled.raw
      && (f.filled.raw < o.size.raw ==> f.filled.raw == o.filled.raw + size.raw)
      && (f.status == Filled <==> f.filled.raw == o.size.raw)
  {
    hide Mul, Div;
    FillColumns(o, size, price);
  }

  /** An exchange update never takes a filled order back, and leaves a terminal status only for another. */
  lemma {:induction false} UpdateKeepsTerminal(current: OrderStatus, event: OrderStatus)
    ensures current == Filled ==> UpdatedStatus(current, event) == Filled
    ensures Terminal(current) ==> Terminal(UpdatedStatus(current, event))
    ensures !Terminal(current) ==> UpdatedStatus(current, event) == event
  {
  }

  // ------------------------------------------------------------------- steps

  lemma {:induction false} RecordAdvances(
    t: Tables, base: seq<OrderRow>, order: nat, row: OrderRow, event: string, outboxEvent: string, u: Tables)
    requires OrdersAdvance(t.orders, base) && order < |base| && u.orders == base
    requires RowAllowed(row) && Advances(base[order], row)
    ensures OrdersAdvance(t.orders, Record(u, order, row, event, outboxEvent).orders)
  {
  }

  lemma {:induction false} FindOrCreateAdvances(orders: seq<OrderRow>, x: ExchangeRef)
    requires RowsAllowed(orders) && FindOrCreate(orders, x).Some?
    ensures OrdersAdvance(orders, FindOrCreate(orders, x).value.0)
  {
    hide FindByOid, FindByCloid;
  }

  lemma {:induction false} FillAdvances(t: Tables, f: Fill)
    requires RowsAllowed(t.orders)
    ensures OrdersAdvance(t.orders, IngestFill(t, f).0.orders)
  {
    hide FindOrCreate, FilledRow, UpsertPosition, ConsumeReservation, OrdersAdvance, Advances;
    if IngestFill(t, f).1 == Done {
      var (orders, i) := FindOrCreate(t.orders, f.target).value;
      FindOrCreateAdvances(t.orders, f.target);
      var found := orders[i].(isSpot := orders[i].isSpot || SpotCoin(f.target.coin));
      FillKeepsProgress(found, f.size, f.price);
      var row := FilledRow(found, f.size, f.price);
      SpotIsNoProgress(orders[i], found.isSpot, row);
      var u := IngestFill(t, f).0.(orders := orders, events := t.events, outbox := t.outbox);
      RecordAdvances(t, orders, i, row, "exchange_fill", "exchange.fill.ingested", u);
    } else {
      NothingAdvances(t.orders);
    }
  }

  lemma {:induction false} SpotIsNoProgress(o: OrderRow, isSpot: bool, row: OrderRow)
    requires Advances(o.(isSpot := isSpot), row)
    ensures Advances(o, row)
  {
  }

  lemma {:induction false} NothingAdvances(orders: seq<OrderRow>)
    requires RowsAllowed(orders)
    ensures OrdersAdvance(orders, orders)
  {
  }

  lemma {:induction false} UpdateAdvances(t: Tables, x: OrderUpdate)
    requires RowsAllowed(t.orders)
    ensures OrdersAdvance(t.orders, IngestOrderUpdate(t, x).0.orders)
  {
    hide FindOrCreate, TransferredCloid, CloseReservation, OrdersAdvance;
    if IngestOrderUpdate(t, x).1 == Done {
      var (orders, i) := FindOrCreate(t.orders, x.target).value;
      FindOrCreateAdvances(t.orders, x.target);
      var row := UpdatedRow(orders[i], x, TransferredCloid(orders, i, x.target.cloid).value);
      var u := IngestOrderUpdate(t, x).0.(orders := orders, events := t.events, outbox := t.outbox);
      RecordAdvances(t, orders, i, row, "exchange_order_update", "exchange.order.updated", u);
    } else {
      NothingAdvances(t.orders);
    }
  }

  lemma {:induction false} PlacementAdvances(t: Tables, cfg: Config, p: Placement)
    requires RowsAllowed(t.orders)
    ensures OrdersAdvance(t.orders, PersistPlacement(t, cfg, p).0.orders)
  {
    hide FindByCloid, PlacedRow, Dispatches, SweptReservations, NewReservation, PlaceCommand;
  }

  lemma {:induction false} OwnWritesAdvance(t: Tables, s: Step)
    requires RowsAllowed(t.orders) && (s.Transit? || s.RequestCancel? || s.Reconcile?)
    ensures OrdersAdvance(t.orders, Apply(t, Config(None, 0), s).0.orders)
  {
    hide FindByCloid, CloseReservation;
    NothingAdvances(t.orders);
  }

  lemma {:induction false} StepAdvances(t: Tables, cfg: Config, s: Step)
    requires RowsAllowed(t.orders)
    ensures OrdersAdvance(t.orders, Apply(t, cfg, s).0.orders)
  {
    hide PersistPlacement, PersistTransition, PersistCancelRequested, PersistReconciled, IngestFill, IngestOrderUpdate;
    match s
    case Place(p) => PlacementAdvances(t, cfg, p);
    case TakeFill(f) => FillAdvances(t, f);
    case TakeUpdate(x) => UpdateAdvances(t, x);
    case _ => OwnWritesAdvance(t, s);
  }

  lemma {:induction false} AdvanceIsTransitive(a: seq<OrderRow>, b: seq<OrderRow>, c: seq<OrderRow>)
    requires OrdersAdvance(a, b) && OrdersAdvance(b, c)
    ensures OrdersAdvance(a, c)
  {
    forall i | 0 <= i < |a| ensures Advances(a[i], c[i]) { assert Advances(a[i], b[i]) && Advances(b[i], c[i]); }
  }

  /** Over any run no order's filled size or revision goes back, and no order disappears. */
  lemma {:induction false} RunAdvances(t: Tables, cfg: Config, steps: seq<Step>)
    requires RowsAllowed(t.orders)
    ensures OrdersAdvance(t.orders, Run(t, cfg, steps).orders)
  {
    hide OrdersAdvance, Apply;
    NothingAdvances(t.orders);
    if steps != [] {
      var front := steps[..|steps| - 1];
      RunAdvances(t, cfg, front);
      AdvancedAreAllowed(t.orders, Run(t, cfg, front).orders);
      StepAdvances(Run(t, cfg, front), cfg, steps[|steps| - 1]);
      AdvanceIsTransitive(t.orders, Run(t, cfg, front).orders, Run(t, cfg, steps).orders);
    }
  }

  lemma {:induction false} AdvancedAreAllowed(a: seq<OrderRow>, b: seq<OrderRow>)
    requires OrdersAdvance(a, b)
    ensures RowsAllowed(b)
  {
  }

  // -------------------------------------------------------- terminal statuses

  /**
   The two ways back from a terminal status: an import of a non-terminal status, and a fill that leaves
   an order incomplete that an update had already called filled.
   */
  ghost predicate Reopens(t: Tables, s: Step, order: nat)
    requires order < |t.orders|
  {
    Target(t, s) == Some(order) &&
    match s
    case Reconcile(x) => !Terminal(x.status)
    case TakeFill(f) =>
      t.orders[order].status == Filled && t.orders[order].filled.raw + f.size.raw < t.orders[order].size.raw
    case _ => false
  }

  lemma {:induction false} FillReopensIff(t: Tables, f: Fill, order: nat)
    requires RowsAllowed(t.orders) && IngestFill(t, f).1 == Done
    requires order < |t.orders| && Terminal(t.orders[order].status)
    ensures order < |IngestFill(t, f).0.orders|
    ensures !Terminal(IngestFill(t, f).0.orders[order].status) <==> Reopens(t, TakeFill(f), order)
  {
    hide FilledRow, UpsertPosition, ConsumeReservation, FindByOid, FindByCloid;
    var (orders, i) := FindOrCreate(t.orders, f.target).value;
    var found := orders[i].(isSpot := orders[i].isSpot || SpotCoin(f.target.coin));
    FillColumns(found, f.size, f.price);
  }

  lemma {:induction false} UpdateKeepsTerminalOrder(t: Tables, x: OrderUpdate, order: nat)
    requires IngestOrderUpdate(t, x).1 == Done && order < |t.orders| && Terminal(t.orders[order].status)
    ensures order < |IngestOrderUpdate(t, x).0.orders| && Terminal(IngestOrderUpdate(t, x).0.orders[order].status)
  {
    hide TransferredCloid, CloseReservation, FindByOid, FindByCloid, RowAllowed;
  }

  /** A terminal order stops being terminal by a transaction if and only if that transaction reopens it. */
  lemma {:induction false} TerminalIsLeftIff(t: Tables, cfg: Config, s: Step, order: nat)
    requires RowsAllowed(t.orders) && Apply(t, cfg, s).1 == Done
    requires order < |t.orders| && Terminal(t.orders[order].status)
    ensures var after := Apply(t, cfg, s).0.orders;
      order < |after| && (!Terminal(after[order].status) <==> Reopens(t, s, order))
  {
    hide IngestFill, IngestOrderUpdate, FindByCloid, FindOrCreate, RowAllowed, CloseReservation;
    hide PlacedRow, Dispatches, SweptReservations, NewReservation, PlaceCommand;
    match s
    case TakeFill(f) => FillReopensIff(t, f, order);
    case TakeUpdate(x) => UpdateKeepsTerminalOrder(t, x, order);
    case _ =>
  }

  const TARGET: ExchangeRef := ExchangeRef("1", "", "s", "BTC", Buy, Some(Decimal(2)), None)
  const CALLED_FILLED: OrderUpdate := OrderUpdate("u", TARGET, None, Filled)

  function FirstFill(price: Decimal): Fill { Fill("f", TARGET, Decimal(1), price, ZERO, ZERO, ZERO) }

  lemma {:induction false} UpdateCallsFilled()
    ensures IngestOrderUpdate(EMPTY, CALLED_FILLED).0.orders == [ProjectedRow(TARGET).(status := Filled, revision := 1)]
    ensures IngestOrderUpdate(EMPTY, CALLED_FILLED).0.inbox == {"u"}
  {
    hide CloseReservation;
    assert [] + [ProjectedRow(TARGET)] == [ProjectedRow(TARGET)];
    assert FindOrCreate(EMPTY.orders, TARGET) == Some(([ProjectedRow(TARGET)], 0));
  }

  lemma {:induction false} FillTakesBack(t: Tables, price: Decimal)
    requires t.orders == [ProjectedRow(TARGET).(status := Filled, revision := 1)] && t.inbox == {"u"} && price.raw > 0
    ensures var after := IngestFill(t, FirstFill(price)).0.orders;
      |after| == 1 && after[0].status == PartialFill && after[0].filled.raw == 1
  {
    hide UpsertPosition, Mul, Div, ConsumeReservation, FilledRow;
    FillColumns(t.orders[0], Decimal(1), price);
    assert FindByOid(t.orders, "1") == Some(0);
    assert FindOrCreate(t.orders, TARGET) == Some((t.orders, 0));
  }

  /** An update calls an unfilled order filled; its first fill then turns it back into a partial fill. */
  lemma {:induction false} FilledOrderIsReopened(cfg: Config, price: Decimal)
    requires price.raw > 0
    ensures var x := Run(EMPTY, cfg, [TakeUpdate(CALLED_FILLED)]).orders;
      var y := Run(EMPTY, cfg, [TakeUpdate(CALLED_FILLED), TakeFill(FirstFill(price))]).orders;
      && |x| == |y| == 1 && x[0].status == Filled && x[0].filled.raw == 0
      && y[0].status == PartialFill && y[0].filled.raw == 1
  {
    hide IngestFill, IngestOrderUpdate;
    var update, fill := TakeUpdate(CALLED_FILLED), TakeFill(FirstFill(price));
    assert [update][..0] == [] && [update, fill][..1] == [update];
    UpdateCallsFilled();
    FillTakesBack(IngestOrderUpdate(EMPTY, CALLED_FILLED).0, price);
    assert Run(EMPTY, cfg, []) == EMPTY;
  }
}
