/**
 A placed order whose fills arrive through ingestion: what is reserved and what is filled always
 add up to the order's size, and the reservation is consumed exactly when the order is complete.
 */
module ReservationConservation {
  import opened Arith
  import opened DecimalCore
  import opened Options
  import opened OrderLedger

  /** Size is conserved between the reservation and the fills of a live order. */
  ghost predicate Balanced(o: OrderRow, r: Reservation) {
    && RowAllowed(o)
    && (r.status == Active || r.status == Consumed)
    && (r.status == Active ==>
          r.size.raw + o.filled.raw == o.size.raw && r.size.raw > 0 && !Terminal(o.status))
    && (r.status == Consumed ==> r.size.raw == 0 && o.filled.raw == o.size.raw && o.status == Filled)
  }

  /** The order has exactly one reservation, and it balances. */
  ghost predicate Conserved(t: Tables, order: nat) {
    && order < |t.orders|
    && FindReservation(t.reservations, order).Some?
    && Balanced(t.orders[order], t.reservations[FindReservation(t.reservations, order).value])
  }

  // --------------------------------------------------------- table lookups

  lemma {:induction false} FindReservationAppend(rows: seq<Reservation>, r: Reservation, order: nat)
    ensures FindReservation(rows + [r], order) ==
            if r.order == order then Some(|rows|) else FindReservation(rows, order)
  {
    assert (rows + [r])[..|rows|] == rows;
  }

  lemma {:induction false} FindReservationSameOrders(a: seq<Reservation>, b: seq<Reservation>, order: nat)
    requires |a| == |b| && forall i | 0 <= i < |a| :: a[i].order == b[i].order
    ensures FindReservation(a, order) == FindReservation(b, order)
  {
    if a != [] {
      FindReservationSameOrders(a[..|a| - 1], b[..|b| - 1], order);
    }
  }

  // --------------------------------------------------------- single changes

  /** What the fill arithmetic does to sizes and status, apart from prices. */
  lemma {:induction false} FillColumns(o: OrderRow, size: Decimal, price: Decimal)
    requires RowAllowed(o) && size.raw > 0
    ensures var o' := FilledRow(o, size, price);
      && o'.filled.raw == Min(o.size.raw, o.filled.raw + size.raw)
      && o'.status == (if o'.filled.raw >= o.size.raw then Filled
                       else if o.status in {Cancelled, Rejected, Expired} then o.status else PartialFill)
      && o' == o.(filled := o'.filled, avg := o'.avg, status := o'.status)
  {
    hide Mul, Div;
    var total := Add(o.filled, size);
    assert total.raw == Min(o.filled.raw + size.raw, I128_MAX);
  }

  lemma {:induction false} ConsumeColumns(r: Reservation, size: Decimal, s: OrderStatus)
    requires r.size.raw >= 0 && size.raw > 0
    ensures var r' := ConsumedReservation(r, size, s);
      && r'.size.raw == Max(r.size.raw - size.raw, 0)
      && r'.status == (if r'.size.raw == 0 || s == Filled then Consumed else Active)
  {
  }

  /** Moving size from a balanced reservation to its order, capped at what is left, stays balanced. */
  lemma {:induction false} MoveKeepsBalance(o: OrderRow, o': OrderRow, r: Reservation, r': Reservation, size: int)
    requires Balanced(o, r) && size > 0
    requires o'.filled.raw == Min(o.size.raw, o.filled.raw + size)
    requires o'.status == (if o'.filled.raw >= o.size.raw then Filled
                           else if o.status in {Cancelled, Rejected, Expired} then o.status else PartialFill)
    requires o' == o.(filled := o'.filled, avg := o'.avg, status := o'.status)
    requires r.status == Active ==> r'.size.raw == Max(r.size.raw - size, 0)
    requires r.status == Active ==> r'.status == (if r'.size.raw == 0 || o'.status == Filled then Consumed else Active)
    requires r.status != Active ==> r' == r
    ensures Balanced(o', r')
  {
  }

  /** The order and its reservation are untouched, up to columns that do not matter here. */
  ghost predicate SameBalance(a: OrderRow, b: OrderRow) {
    b == a.(oid := b.oid, isSpot := b.isSpot, revision := b.revision) && RowAllowed(b)
  }

  lemma {:induction false} CarryOver(t: Tables, u: Tables, order: nat)
    requires Conserved(t, order) && order < |u.orders| && SameBalance(t.orders[order], u.orders[order])
    requires FindReservation(u.reservations, order) == FindReservation(t.reservations, order)
    requires var i := FindReservation(t.reservations, order).value;
      i < |u.reservations| && u.reservations[i] == t.reservations[i]
    ensures Conserved(u, order)
  {
  }

  /** The order a transaction resolves to, if it resolves to an existing one. */
  function Target(t: Tables, s: Step): Option<nat> {
    match s
    case Place(_) => None
    case Transit(x) => FindByCloid(t.orders, x.cloid)
    case RequestCancel(cloid, _, _) => FindByCloid(t.orders, cloid)
    case Reconcile(x) => FindByCloid(t.orders, x.cloid)
    case TakeFill(f) => if FindOrCreate(t.orders, f.target).Some? then Some(FindOrCreate(t.orders, f.target).value.1) else None
    case TakeUpdate(u) => if FindOrCreate(t.orders, u.target).Some? then Some(FindOrCreate(t.orders, u.target).value.1) else None
  }

  /** Everything but fills and cancel requests stays away from the order. */
  predicate FillsOnly(t: Tables, s: Step, order: nat) {
    s.TakeFill? || s.RequestCancel? || Target(t, s) != Some(order)
  }

  lemma {:induction false} CloseElsewhere(rows: seq<Reservation>, other: nat, s: OrderStatus, order: nat)
    requires other != order
    ensures var after := CloseReservation(rows, other, s);
      && |after| == |rows|
      && (forall i | 0 <= i < |rows| :: after[i].order == rows[i].order)
      && FindReservation(after, order) == FindReservation(rows, order)
      && (FindReservation(rows, order).Some? ==>
            after[FindReservation(rows, order).value] == rows[FindReservation(rows, order).value])
  {
    FindReservationSameOrders(rows, CloseReservation(rows, other, s), order);
  }

  lemma {:induction false} ConsumeShape(rows: seq<Reservation>, target: nat, size: Decimal, s: OrderStatus, order: nat)
    ensures var after := ConsumeReservation(rows, target, size, s);
      && |after| == |rows|
      && (forall i | 0 <= i < |rows| :: after[i].order == rows[i].order)
      && FindReservation(after, order) == FindReservation(rows, order)
      && (FindReservation(rows, order).Some? ==>
            var i := FindReservation(rows, order).value;
            after[i] == if target == order && rows[i].status == Active
                        then ConsumedReservation(rows[i], size, s) else rows[i])
  {
    FindReservationSameOrders(rows, ConsumeReservation(rows, target, size, s), order);
  }

  /** Sweeping lapsed reservations leaves a live order's reservation alone. */
  lemma {:induction false} SweepKeepsBalance(t: Tables, cfg: Config, p: Placement, order: nat)
    requires Conserved(t, order)
    ensures var swept := SweptReservations(t, cfg, p);
      && |swept| == |t.reservations|
      && (forall i | 0 <= i < |swept| :: swept[i].order == t.reservations[i].order)
      && FindReservation(swept, order) == FindReservation(t.reservations, order)
      && swept[FindReservation(swept, order).value] == t.reservations[FindReservation(swept, order).value]
  {
    FindReservationSameOrders(t.reservations, SweptReservations(t, cfg, p), order);
  }

  lemma {:induction false} FindOrCreateElsewhere(orders: seq<OrderRow>, x: ExchangeRef, order: nat)
    requires order < |orders| && RowAllowed(orders[order]) && FindOrCreate(orders, x).Some?
    ensures order < |FindOrCreate(orders, x).value.0|
    ensures SameBalance(orders[order], FindOrCreate(orders, x).value.0[order])
  {
  }

  // ------------------------------------------------------------------ runs

  lemma {:induction false} FillStepConserves(t: Tables, f: Fill, order: nat)
    requires Conserved(t, order)
    ensures Conserved(IngestFill(t, f).0, order)
  {
    hide FindOrCreate, FilledRow, ConsumeReservation, ConsumedReservation, FindReservation, UpsertPosition;
    var (after, outcome) := IngestFill(t, f);
    if outcome == Done {
      var (orders, i) := FindOrCreate(t.orders, f.target).value;
      FindOrCreateElsewhere(t.orders, f.target, order);
      var found := orders[i].(isSpot := orders[i].isSpot || SpotCoin(f.target.coin));
      var row := FilledRow(found, f.size, f.price);
      ConsumeShape(t.reservations, i, f.size, row.status, order);
      var r := t.reservations[FindReservation(t.reservations, order).value];
      if i == order {
        FillColumns(found, f.size, f.price);
        ConsumeColumns(r, f.size, row.status);
        MoveKeepsBalance(found, row, r, if r.status == Active then ConsumedReservation(r, f.size, row.status) else r, f.size.raw);
      }
    }
  }

  lemma {:induction false} PlaceStepConserves(t: Tables, cfg: Config, p: Placement, order: nat)
    requires Conserved(t, order)
    ensures Conserved(PersistPlacement(t, cfg, p).0, order)
  {
    var (after, outcome) := PersistPlacement(t, cfg, p);
    if outcome == Done {
      SweepKeepsBalance(t, cfg, p, order);
      FindReservationAppend(SweptReservations(t, cfg, p), NewReservation(t, cfg, p), order);
    }
  }

  lemma {:induction false} UpdateStepConserves(t: Tables, u: OrderUpdate, order: nat)
    requires Conserved(t, order) && Target(t, TakeUpdate(u)) != Some(order)
    ensures Conserved(IngestOrderUpdate(t, u).0, order)
  {
    if IngestOrderUpdate(t, u).1 == Done {
      var (orders, i) := FindOrCreate(t.orders, u.target).value;
      FindOrCreateElsewhere(t.orders, u.target, order);
      CloseElsewhere(t.reservations, i, u.status, order);
    }
  }

  lemma {:induction false} ReportStepConserves(t: Tables, cfg: Config, s: Step, order: nat)
    requires Conserved(t, order) && FillsOnly(t, s, order) && (s.Transit? || s.RequestCancel? || s.Reconcile?)
    ensures Conserved(Apply(t, cfg, s).0, order)
  {
    hide FindByCloid, FindReservation, CloseReservation;
    if Apply(t, cfg, s).1 == Done {
      match s
      case Transit(x) =>
        var i := FindByCloid(t.orders, x.cloid).value;
        CloseElsewhere(t.reservations, i, MergeTransport(t.orders[i], x).value.status, order);
      case RequestCancel(_, _, _) => CarryOver(t, Apply(t, cfg, s).0, order);
      case Reconcile(x) =>
        var at := FindByCloid(t.orders, x.cloid);
        CloseElsewhere(t.reservations, if at.Some? then at.value else |t.orders|, x.status, order);
    }
  }

  lemma {:induction false} StepConserves(t: Tables, cfg: Config, s: Step, order: nat)
    requires Conserved(t, order) && FillsOnly(t, s, order)
    ensures Conserved(Apply(t, cfg, s).0, order)
  {
    hide Conserved, PersistPlacement, IngestFill, IngestOrderUpdate, FindOrCreate, FindByCloid;
    hide PersistTransition, PersistCancelRequested, PersistReconciled;
    match s
    case Place(p) => PlaceStepConserves(t, cfg, p, order);
    case Transit(_) => ReportStepConserves(t, cfg, s, order);
    case RequestCancel(_, _, _) => ReportStepConserves(t, cfg, s, order);
    case Reconcile(_) => ReportStepConserves(t, cfg, s, order);
    case TakeFill(f) => FillStepConserves(t, f, order);
    case TakeUpdate(u) => UpdateStepConserves(t, u, order);
  }

  /** Every step of the run leaves the order to fills and cancel requests. */
  ghost predicate FillsOnlyRun(t: Tables, cfg: Config, steps: seq<Step>, order: nat) {
    forall k | 0 <= k < |steps| :: FillsOnly(Run(t, cfg, steps[..k]), steps[k], order)
  }

  /**
   Conservation over every run: once balanced, an order stays balanced under any interleaving of
   fills of any order, redeliveries, overfills, cancel requests, and transactions on other orders.
   */
  lemma {:induction false} RunConserves(t: Tables, cfg: Config, steps: seq<Step>, order: nat)
    requires Conserved(t, order) && FillsOnlyRun(t, cfg, steps, order)
    ensures Conserved(Run(t, cfg, steps), order)
  {
    hide Conserved, Apply, FillsOnly;
    if steps != [] {
      var n := |steps| - 1;
      var front := steps[..n];
      assert FillsOnlyRun(t, cfg, front, order) by {
        forall k | 0 <= k < n ensures FillsOnly(Run(t, cfg, front[..k]), front[k], order) {
          assert front[..k] == steps[..k];
        }
      }
      assert FillsOnly(Run(t, cfg, front), steps[n], order);
      RunConserves(t, cfg, front, order);
      StepConserves(Run(t, cfg, front), cfg, steps[n], order);
    }
  }

  /** A dispatched placement of an unfilled, live order starts out balanced. */
  lemma {:induction false} PlacementIsBalanced(t: Tables, cfg: Config, p: Placement)
    requires PersistPlacement(t, cfg, p).1 == Done && Dispatches(t, cfg, p)
    requires p.order.filled.raw == 0 && !Terminal(p.order.status)
    ensures Conserved(PersistPlacement(t, cfg, p).0, |t.orders|)
  {
    FindReservationAppend(SweptReservations(t, cfg, p), NewReservation(t, cfg, p), |t.orders|);
  }

  /**
   Reservation conservation: for an order created by a dispatched placement and then changed only by
   fill ingestion, an active reservation plus the filled size is the order's size, and a consumed one
   means the order is completely filled.
   */
  lemma {:induction false} PlacedOrderIsConserved(t: Tables, cfg: Config, p: Placement, steps: seq<Step>)
    requires PersistPlacement(t, cfg, p).1 == Done && Dispatches(t, cfg, p)
    requires p.order.filled.raw == 0 && !Terminal(p.order.status)
    requires FillsOnlyRun(PersistPlacement(t, cfg, p).0, cfg, steps, |t.orders|)
    ensures Conserved(Run(PersistPlacement(t, cfg, p).0, cfg, steps), |t.orders|)
  {
    PlacementIsBalanced(t, cfg, p);
    RunConserves(PersistPlacement(t, cfg, p).0, cfg, steps, |t.orders|);
  }
}
