/**
 Over any run no ended order still blocks capital: an order that is filled, cancelled, rejected or expired has no
 active reservation.
 */
module EndedOrders {
  import opened DecimalCore
  import opened Options
  import opened OrderLedger
  import opened ReservationConservation

  /** Every order has at most one reservation. */
  ghost predicate OneEach(rows: seq<Reservation>) {
    forall i, j | 0 <= i < j < |rows| :: rows[i].order != rows[j].order
  }

  /** Active reservations are those of live orders. */
  ghost predicate OnlyLiveReserve(t: Tables) {
    && OneEach(t.reservations)
    && forall r <- t.reservations ::
         && r.order < |t.orders|
         && (r.status == Active ==> t.orders[r.order].status !in {Filled, Cancelled, Rejected, Expired})
  }

  /** No reservation moves to another order or becomes active again. */
  ghost predicate NoneRevived(a: seq<Reservation>, b: seq<Reservation>) {
    |b| == |a| && forall k | 0 <= k < |a| :: b[k].order == a[k].order && (b[k].status == Active ==> a[k].status == Active)
  }

  ghost predicate HoldsNothing(rows: seq<Reservation>, order: nat) {
    forall r <- rows | r.order == order :: r.status != Active
  }

  lemma {:induction false} OneOrderMoves(t: Tables, u: Tables, i: nat)
    requires OnlyLiveReserve(t) && NoneRevived(t.reservations, u.reservations) && |t.orders| <= |u.orders|
    requires forall k | 0 <= k < |t.orders| && k != i :: u.orders[k].status == t.orders[k].status
    requires i < |u.orders| && Terminal(u.orders[i].status) ==> HoldsNothing(u.reservations, i)
    ensures OnlyLiveReserve(u)
  {
    forall r <- u.reservations
      ensures r.order < |u.orders| && (r.status == Active ==> !Terminal(u.orders[r.order].status))
    {
      var k :| 0 <= k < |u.reservations| && u.reservations[k] == r;
      assert t.reservations[k] in t.reservations;
    }
  }

  lemma {:induction false} CloseEnds(rows: seq<Reservation>, order: nat, s: OrderStatus)
    requires OneEach(rows)
    ensures NoneRevived(rows, CloseReservation(rows, order, s))
    ensures Terminal(s) || HoldsNothing(rows, order) ==> HoldsNothing(CloseReservation(rows, order, s), order)
  {
  }

  lemma {:induction false} ConsumeEnds(rows: seq<Reservation>, order: nat, size: Decimal, s: OrderStatus)
    requires OneEach(rows)
    ensures NoneRevived(rows, ConsumeReservation(rows, order, size, s))
    ensures s == Filled || HoldsNothing(rows, order) ==> HoldsNothing(ConsumeReservation(rows, order, size, s), order)
  {
    hide Mul, Div;
  }

  lemma {:induction false} TerminalHoldsNothing(t: Tables, i: nat)
    requires OnlyLiveReserve(t) && (i < |t.orders| ==> Terminal(t.orders[i].status))
    ensures HoldsNothing(t.reservations, i)
  {
  }

  lemma {:induction false} FindOrCreateKeepsStatuses(orders: seq<OrderRow>, x: ExchangeRef)
    requires FindOrCreate(orders, x).Some?
    ensures var found := FindOrCreate(orders, x).value.0;
      && |orders| <= |found| && forall k | 0 <= k < |orders| :: found[k].status == orders[k].status
  {
    hide FindByOid, FindByCloid;
  }

  lemma {:induction false} PlacementKeeps(t: Tables, cfg: Config, p: Placement)
    requires OnlyLiveReserve(t) && (p.dispatch ==> !Terminal(p.order.status))
    ensures OnlyLiveReserve(PersistPlacement(t, cfg, p).0)
  {
    hide EffectiveRisk, FindByCloid, ActiveRows;
    var u := PersistPlacement(t, cfg, p).0;
    if PersistPlacement(t, cfg, p).1 == Done {
      var swept := t.(reservations := SweptReservations(t, cfg, p));
      OneOrderMoves(t, swept, |t.orders|);
      forall r <- u.reservations
        ensures r.order < |u.orders| && (r.status == Active ==> !Terminal(u.orders[r.order].status))
      {
        if r in swept.reservations { assert u.orders[r.order] == t.orders[r.order]; }
      }
    }
  }

  lemma {:induction false} FillKeeps(t: Tables, f: Fill)
    requires OnlyLiveReserve(t)
    ensures OnlyLiveReserve(IngestFill(t, f).0)
  {
    hide FindOrCreate, FilledRow, ConsumeReservation, UpsertPosition, OnlyLiveReserve, OneEach;
    if IngestFill(t, f).1 == Done {
      FindOrCreateKeepsStatuses(t.orders, f.target);
      var (orders, i) := FindOrCreate(t.orders, f.target).value;
      var found := orders[i].(isSpot := orders[i].isSpot || SpotCoin(f.target.coin));
      var u := IngestFill(t, f).0;
      FillColumns(found, f.size, f.price);
      assert OneEach(t.reservations) by { UnfoldOneEach(t); }
      ConsumeEnds(t.reservations, i, f.size, u.orders[i].status);
      if Terminal(u.orders[i].status) && u.orders[i].status != Filled { TerminalHoldsNothing(t, i); }
      OneOrderMoves(t, u, i);
    }
  }

  lemma {:induction false} UnfoldOneEach(t: Tables)
    requires OnlyLiveReserve(t)
    ensures OneEach(t.reservations)
  {
  }

  lemma {:induction false} UpdateKeeps(t: Tables, x: OrderUpdate)
    requires OnlyLiveReserve(t)
    ensures OnlyLiveReserve(IngestOrderUpdate(t, x).0)
  {
    hide FindOrCreate, CloseReservation, TransferredCloid, RowAllowed, OnlyLiveReserve, OneEach, HoldsNothing;
    if IngestOrderUpdate(t, x).1 == Done {
      FindOrCreateKeepsStatuses(t.orders, x.target);
      var (orders, i) := FindOrCreate(t.orders, x.target).value;
      var u := IngestOrderUpdate(t, x).0;
      UnfoldOneEach(t);
      CloseEnds(t.reservations, i, x.status);
      if Terminal(u.orders[i].status) && !Terminal(x.status) { TerminalHoldsNothing(t, i); }
      OneOrderMoves(t, u, i);
    }
  }

  lemma {:induction false} ReportKeeps(t: Tables, s: Step)
    requires OnlyLiveReserve(t) && (s.Transit? || s.RequestCancel? || s.Reconcile?)
    ensures OnlyLiveReserve(Apply(t, Config(None, 0), s).0)
  {
    hide FindByCloid, CloseReservation, RowAllowed, OnlyLiveReserve, OneEach, HoldsNothing;
    var u := Apply(t, Config(None, 0), s).0;
    UnfoldOneEach(t);
    match s
    case Transit(x) =>
      if u != t {
        var i := FindByCloid(t.orders, x.cloid).value;
        CloseEnds(t.reservations, i, u.orders[i].status);
        OneOrderMoves(t, u, i);
      }
    case RequestCancel(cloid, _, _) =>
      if u != t {
        var i := FindByCloid(t.orders, cloid).value;
        if Terminal(t.orders[i].status) { TerminalHoldsNothing(t, i); }
        OneOrderMoves(t, u, i);
      }
    case Reconcile(x) =>
      if u != t {
        var at := FindByCloid(t.orders, x.cloid);
        var i := if at.Some? then at.value else |t.orders|;
        CloseEnds(t.reservations, i, x.status);
        OneOrderMoves(t, u, i);
      }
  }

  /** Orders that are sent out are placed in a live status. */
  ghost predicate PlacesLive(steps: seq<Step>) {
    forall s <- steps | s.Place? && s.placement.dispatch :: !Terminal(s.placement.order.status)
  }

  lemma {:induction false} RunKeepsOnlyLive(t: Tables, cfg: Config, steps: seq<Step>)
    requires OnlyLiveReserve(t) && PlacesLive(steps)
    ensures OnlyLiveReserve(Run(t, cfg, steps))
  {
    hide OnlyLiveReserve, Apply;
    if steps != [] {
      var front, s := steps[..|steps| - 1], steps[|steps| - 1];
      RunKeepsOnlyLive(t, cfg, front);
      StepKeepsOnlyLive(Run(t, cfg, front), cfg, s);
    }
  }

  lemma {:induction false} StepKeepsOnlyLive(t: Tables, cfg: Config, s: Step)
    requires OnlyLiveReserve(t) && (s.Place? && s.placement.dispatch ==> !Terminal(s.placement.order.status))
    ensures OnlyLiveReserve(Apply(t, cfg, s).0)
  {
    hide OnlyLiveReserve, PersistPlacement, PersistTransition, PersistCancelRequested, PersistReconciled;
    hide IngestFill, IngestOrderUpdate, Terminal;
    match s
    case Place(p) => PlacementKeeps(t, cfg, p);
    case Transit(_) => ReportKeeps(t, s);
    case RequestCancel(_, _, _) => ReportKeeps(t, s);
    case Reconcile(_) => ReportKeeps(t, s);
    case TakeFill(f) => FillKeeps(t, f);
    case TakeUpdate(x) => UpdateKeeps(t, x);
  }

  /**
   However reports, imports, fills and updates interleave, from an empty database every order has at most one
   reservation, and none that is active once the order has ended.
   */
  lemma {:induction false} EndedOrderHoldsNothing(cfg: Config, steps: seq<Step>, order: nat)
    requires PlacesLive(steps)
    ensures var t := Run(EMPTY, cfg, steps);
      && (forall i, j | 0 <= i < j < |t.reservations| :: t.reservations[i].order != t.reservations[j].order)
      && (order < |t.orders| && t.orders[order].status in {Filled, Cancelled, Rejected, Expired} ==>
            forall i | 0 <= i < |t.reservations| && t.reservations[i].order == order ::
              t.reservations[i].status in {Consumed, Released, Lapsed})
  {
    hide Run;
    RunKeepsOnlyLive(EMPTY, cfg, steps);
  }
}
