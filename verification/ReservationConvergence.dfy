/**
 What a set of fills does to the reservation of an order. The status, and the size while active, depend on
 the set alone. What is left of a consumed reservation is fixed by the fills up to the one that consumed it,
 and so depends on the order of arrival unless every such sum is the same.
 */
module ReservationConvergence {
  import opened Arith
  import opened DecimalCore
  import opened Options
  import opened RiskAdmission
  import opened OrderLedger
  import opened ReservationConservation
  import opened FillConvergence

  ghost function ReservationOf(t: Tables, order: nat): Reservation
    requires FindReservation(t.reservations, order).Some?
  {
    t.reservations[FindReservation(t.reservations, order).value]
  }

  /** The order has a reservation, of a size the table allows. */
  ghost predicate Reserved(t: Tables, order: nat) {
    && order < |t.orders| && RowAllowed(t.orders[order])
    && FindReservation(t.reservations, order).Some? && ReservationOf(t, order).size.raw >= 0
  }

  /** The size of the fills that belong to the order and take effect. */
  ghost function FilledBy(t: Tables, fills: map<string, Fill>, ids: set<string>, order: nat): int {
    SetSum(ids, SizeFor(t, fills, order))
  }

  /** How much has to be filled until the reservation is consumed: all of it, or what completes the order. */
  ghost function Needed(t: Tables, order: nat): int
    requires Reserved(t, order)
  {
    var o := t.orders[order];
    Max(1, Min(ReservationOf(t, order).size.raw, o.size.raw - o.filled.raw))
  }

  /** After the fills ids, the fill x consumes the reservation. */
  ghost predicate Consumes(t: Tables, fills: map<string, Fill>, order: nat, ids: set<string>, x: string)
    requires Reserved(t, order)
  {
    && ids <= fills.Keys && x in fills && x !in ids
    && FilledBy(t, fills, ids, order) < Needed(t, order) <= FilledBy(t, fills, ids + {x}, order)
  }

  ghost function Leftover(t: Tables, fills: map<string, Fill>, order: nat, ids: set<string>): int
    requires Reserved(t, order)
  {
    Max(ReservationOf(t, order).size.raw - FilledBy(t, fills, ids, order), 0)
  }

  /** The reservation after a set of fills. */
  ghost predicate ReservationIs(t: Tables, fills: map<string, Fill>, ids: set<string>, order: nat, r: Reservation)
    requires Reserved(t, order)
  {
    var before := ReservationOf(t, order);
    if before.status != Active then r == before
    else if FilledBy(t, fills, ids, order) < Needed(t, order) then
      r.status == Active && r.size.raw == before.size.raw - FilledBy(t, fills, ids, order)
    else
      r.status == Consumed && exists done: set<string>, x ::
        Consumes(t, fills, order, done, x) && done + {x} <= ids && r.size.raw == Leftover(t, fills, order, done + {x})
  }

  // --------------------------------------------------------------- one fill

  lemma {:induction false} FilledByMore(t: Tables, fills: map<string, Fill>, ids: set<string>, order: nat, x: string)
    ensures FilledBy(t, fills, ids + {x}, order) == FilledBy(t, fills, ids, order)
      + (if x !in ids && Effective(t, fills, x) && TargetOf(t, fills[x]) == order then fills[x].size.raw else 0)
  {
    SetSumAdd(ids, SizeFor(t, fills, order), x);
  }

  lemma {:induction false} FilledByIsNonNegative(t: Tables, fills: map<string, Fill>, ids: set<string>, order: nat)
    ensures FilledBy(t, fills, ids, order) >= 0
  {
    if ids != {} {
      var x :| x in ids;
      SetSumPick(ids, SizeFor(t, fills, order), x);
      FilledByIsNonNegative(t, fills, ids - {x}, order);
    }
  }

  /** What an effective fill does to the reservation of an order. */
  lemma {:induction false} OneFill(u: Tables, f: Fill, target: nat, after: Tables, order: nat)
    requires TookEffect(u, f, target, after) && FindReservation(u.reservations, order).Some?
    requires ReservationOf(u, order).size.raw >= 0 && f.size.raw > 0
    ensures FindReservation(after.reservations, order) == FindReservation(u.reservations, order)
    ensures FindReservation(after.reservations, order).value < |after.reservations|
    ensures var r, r' := ReservationOf(u, order), ReservationOf(after, order);
      if target != order || r.status != Active then r' == r
      else
        && r'.size.raw == Max(r.size.raw - f.size.raw, 0)
        && r'.status == (if r'.size.raw == 0 || after.orders[order].status == Filled then Consumed else Active)
  {
    hide FindReservation, ConsumedReservation, OneMoreFill, ConsumeReservation;
    ConsumeShape(u.reservations, target, f.size, after.orders[target].status, order);
    if target == order { ConsumeColumns(ReservationOf(u, order), f.size, after.orders[order].status); }
  }

  /** The order is completed by the fill exactly when what is filled then reaches its size. */
  lemma {:induction false} CompletedIff(
    t: Tables, fills: map<string, Fill>, ids: set<string>, x: string, u: Tables, after: Tables, order: nat)
    requires TotalsAre(t, fills, ids, u) && order < |t.orders| && x !in ids
    requires Effective(t, fills, x) && TargetOf(t, fills[x]) == order && TookEffect(u, fills[x], order, after)
    ensures order < |after.orders|
    ensures after.orders[order].status == Filled <==>
      t.orders[order].filled.raw + FilledBy(t, fills, ids + {x}, order) >= t.orders[order].size.raw
  {
    hide Home, EntrySum, OidIs, SetSum, Effective;
    assert OrderIs(t, fills, ids, u.orders[order], order);
    FilledByMore(t, fills, ids, order, x);
    EffectiveIsPositive(t, fills, x);
  }

  lemma {:induction false} ActiveStays(
    t: Tables, fills: map<string, Fill>, ids: set<string>, x: string, order: nat, r: Reservation, r': Reservation,
    completes: bool)
    requires Reserved(t, order) && ReservationIs(t, fills, ids, order, r) && ids <= fills.Keys
    requires x !in ids && Effective(t, fills, x) && TargetOf(t, fills[x]) == order
    requires completes <==>
      t.orders[order].filled.raw + FilledBy(t, fills, ids + {x}, order) >= t.orders[order].size.raw
    requires r.status != Active ==> r' == r
    requires r.status == Active ==>
      && r'.size.raw == Max(r.size.raw - fills[x].size.raw, 0)
      && r'.status == (if r'.size.raw == 0 || completes then Consumed else Active)
    ensures ReservationIs(t, fills, ids + {x}, order, r')
    ensures r.status == Active && r'.status == Consumed ==> r'.size.raw == Leftover(t, fills, order, ids + {x})
  {
    hide SetSum, Home;
    FilledByMore(t, fills, ids, order, x);
    FilledByIsNonNegative(t, fills, ids, order);
    if r.status == Active {
      if r'.status == Consumed { assert Consumes(t, fills, order, ids, x); }
    } else if ReservationOf(t, order).status == Active {
      WitnessStays(t, fills, ids, x, order, r);
    }
  }

  lemma {:induction false} WitnessStays(
    t: Tables, fills: map<string, Fill>, ids: set<string>, x: string, order: nat, r: Reservation)
    requires Reserved(t, order) && ReservationIs(t, fills, ids, order, r) && ReservationOf(t, order).status == Active
    requires r.status != Active && FilledBy(t, fills, ids, order) <= FilledBy(t, fills, ids + {x}, order)
    ensures ReservationIs(t, fills, ids + {x}, order, r)
  {
    hide FilledBy;
    var done: set<string>, y :| Consumes(t, fills, order, done, y) && done + {y} <= ids
      && r.size.raw == Leftover(t, fills, order, done + {y});
    assert done + {y} <= ids + {x};
  }

  /** The tables after some of the fills, with the order's reservation found where it was. */
  ghost predicate Tracks(t: Tables, fills: map<string, Fill>, ids: set<string>, order: nat, u: Tables)
    requires Reserved(t, order)
  {
    && TotalsAre(t, fills, ids, u)
    && FindReservation(u.reservations, order) == FindReservation(t.reservations, order)
    && FindReservation(u.reservations, order).value < |u.reservations|
    && ReservationIs(t, fills, ids, order, ReservationOf(u, order))
    && ReservationOf(u, order).size.raw >= 0
  }

  lemma {:induction false} TracksStep(
    t: Tables, fills: map<string, Fill>, ids: set<string>, x: string, order: nat, u: Tables)
    requires Resolves(t, fills) && Reserved(t, order) && ids <= fills.Keys && x in fills && Tracks(t, fills, ids, order, u)
    ensures var after := IngestFill(u, fills[x]).0;
      && Tracks(t, fills, ids + {x}, order, after)
      && (ReservationOf(u, order).status != Active ==> ReservationOf(after, order) == ReservationOf(u, order))
      && (ReservationOf(u, order).status == Active && ReservationOf(after, order).status == Consumed ==>
            ReservationOf(after, order).size.raw == Leftover(t, fills, order, ids + {x}))
  {
    hide IngestFill, TotalsAre, TookEffect, Effective, Home, Resolves, ReservationIs, FilledBy, Leftover, FindReservation;
    var f := fills[x];
    var after := IngestFill(u, f).0;
    HomeIsSome(t, fills, x);
    TotalsStep(t, fills, ids, x, u);
    EffectiveNow(t, fills, ids, x, u);
    IngestKnown(u, f);
    if x !in ids && Effective(t, fills, x) {
      EffectiveIsPositive(t, fills, x);
      OneFill(u, f, TargetOf(t, f), after, order);
      if TargetOf(t, f) == order {
        CompletedIff(t, fills, ids, x, u, after, order);
        ActiveStays(t, fills, ids, x, order, ReservationOf(u, order), ReservationOf(after, order),
                    after.orders[order].status == Filled);
      } else {
        NothingForOrder(t, fills, ids, x, order, ReservationOf(u, order));
      }
    } else {
      NothingForOrder(t, fills, ids, x, order, ReservationOf(u, order));
    }
  }

  lemma {:induction false} EffectiveIsPositive(t: Tables, fills: map<string, Fill>, x: string)
    requires Effective(t, fills, x)
    ensures x in fills && fills[x].size.raw > 0
  {
  }

  lemma {:induction false} NothingForOrder(
    t: Tables, fills: map<string, Fill>, ids: set<string>, x: string, order: nat, r: Reservation)
    requires Reserved(t, order) && ReservationIs(t, fills, ids, order, r)
    requires x in ids || !Effective(t, fills, x) || TargetOf(t, fills[x]) != order
    ensures ReservationIs(t, fills, ids + {x}, order, r)
  {
    FilledByMore(t, fills, ids, order, x);
    hide FilledBy, Leftover, Effective, Home;
    if ReservationOf(t, order).status == Active && FilledBy(t, fills, ids, order) >= Needed(t, order) {
      WitnessStays(t, fills, ids, x, order, r);
    }
  }

  // ------------------------------------------------------------- deliveries

  lemma {:induction false} NothingTracked(t: Tables, fills: map<string, Fill>, order: nat)
    requires Resolves(t, fills) && Reserved(t, order)
    ensures Tracks(t, fills, Ids([]), order, t)
  {
    NothingIngested(t, fills);
    assert Ids([]) == {};
  }

  /** The order's reservation after any delivery, as far as the set of delivered fills determines it. */
  lemma {:induction false} ReservationOfIngested(t: Tables, fills: map<string, Fill>, ids: seq<string>, order: nat)
    requires Resolves(t, fills) && Reserved(t, order) && forall id <- ids :: id in fills
    ensures Tracks(t, fills, Ids(ids), order, IngestAll(t, fills, ids))
  {
    hide Resolves, Reserved, IngestFill, Tracks;
    if ids == [] {
      NothingTracked(t, fills, order);
    } else {
      var front := ids[..|ids| - 1];
      ReservationOfIngested(t, fills, front, order);
      assert Ids(front) <= fills.Keys;
      TracksStep(t, fills, Ids(front), ids[|ids| - 1], order, IngestAll(t, fills, front));
      IdsOfMore(ids);
    }
  }

  /** The reserved size is no larger than what the order still has to fill. */
  ghost predicate ReservedFits(t: Tables, order: nat)
    requires Reserved(t, order)
  {
    ReservationOf(t, order).size.raw <= t.orders[order].size.raw - t.orders[order].filled.raw
  }

  /**
   Any two deliveries of the same set of fills end with the same reservation status, and with the same size
   while the reservation is active; with the same size in every case if no more was reserved than was left to fill.
   */
  lemma {:induction false} ReservationsConverge(
    t: Tables, fills: map<string, Fill>, a: seq<string>, b: seq<string>, order: nat)
    requires Resolves(t, fills) && (forall id <- a :: id in fills) && (forall id <- b :: id in fills)
    requires Ids(a) == Ids(b) && Reserved(t, order)
    ensures var x, y := IngestAll(t, fills, a), IngestAll(t, fills, b);
      && FindReservation(x.reservations, order).Some? && FindReservation(y.reservations, order).Some?
      && var r, r' := ReservationOf(x, order), ReservationOf(y, order);
         && r.status == r'.status
         && (r.status == Active || ReservationOf(t, order).status != Active || ReservedFits(t, order) ==>
               r.size == r'.size)
  {
    hide IngestAll, EntrySum, FilledBy;
    ReservationOfIngested(t, fills, a, order);
    ReservationOfIngested(t, fills, b, order);
  }

  /** In particular for a balanced order: its reservation is what is left of the order. */
  lemma {:induction false} BalancedReservationsConverge(
    t: Tables, fills: map<string, Fill>, a: seq<string>, b: seq<string>, order: nat)
    requires Resolves(t, fills) && (forall id <- a :: id in fills) && (forall id <- b :: id in fills)
    requires Ids(a) == Ids(b) && Conserved(t, order)
    ensures var x, y := IngestAll(t, fills, a), IngestAll(t, fills, b);
      && FindReservation(x.reservations, order).Some? && FindReservation(y.reservations, order).Some?
      && ReservationOf(x, order).size == ReservationOf(y, order).size
      && ReservationOf(x, order).status == ReservationOf(y, order).status
  {
    ReservationsConverge(t, fills, a, b, order);
  }

  // ------------------------------------------- what is left of a consumed one

  /** Every two complete deliveries end with the same status and size of the order's reservation. */
  ghost predicate ReservationConverges(t: Tables, fills: map<string, Fill>, order: nat)
    requires Resolves(t, fills) && Reserved(t, order)
  {
    forall a, b | Delivers(fills, a) && Delivers(fills, b) :: SameReservation(t, fills, order, a, b)
  }

  ghost predicate SameReservation(t: Tables, fills: map<string, Fill>, order: nat, a: seq<string>, b: seq<string>) {
    && (forall id <- a :: id in fills) && (forall id <- b :: id in fills)
    && var x, y := IngestAll(t, fills, a), IngestAll(t, fills, b);
       && FindReservation(x.reservations, order).Some? && FindReservation(y.reservations, order).Some?
       && ReservationOf(x, order).size == ReservationOf(y, order).size
       && ReservationOf(x, order).status == ReservationOf(y, order).status
  }

  lemma {:induction false} ReservedIsFound(t: Tables, order: nat)
    requires Reserved(t, order)
    ensures FindReservation(t.reservations, order).Some?
  {
  }

  /** A consumed reservation is left alone by whatever fills come later. */
  lemma {:induction false} ConsumedStays(
    t: Tables, fills: map<string, Fill>, ids: seq<string>, later: seq<string>, order: nat)
    requires Resolves(t, fills) && Reserved(t, order)
    requires (forall id <- ids :: id in fills) && (forall id <- later :: id in fills)
    requires FindReservation(IngestAll(t, fills, ids).reservations, order).Some?
    requires ReservationOf(IngestAll(t, fills, ids), order).status != Active
    ensures Tracks(t, fills, Ids(ids + later), order, IngestAll(t, fills, ids + later))
    ensures ReservationOf(IngestAll(t, fills, ids + later), order) == ReservationOf(IngestAll(t, fills, ids), order)
  {
    hide Resolves, Reserved, IngestFill, IngestAll, ReservationIs, TotalsAre;
    ReservationOfIngested(t, fills, ids + later, order);
    if later == [] {
      assert ids + later == ids;
    } else {
      var n := |later| - 1;
      ConsumedStays(t, fills, ids, later[..n], order);
      assert ids + later == (ids + later[..n]) + [later[n]];
      IngestMore(t, fills, ids + later[..n], later[n]);
      assert Ids(ids + later[..n]) <= fills.Keys;
      TracksStep(t, fills, Ids(ids + later[..n]), later[n], order, IngestAll(t, fills, ids + later[..n]));
    }
  }

  /** Some complete delivery consumes the reservation with exactly these fills. */
  lemma {:induction false} ConsumedByDelivery(
    t: Tables, fills: map<string, Fill>, order: nat, done: set<string>, x: string) returns (a: seq<string>)
    requires Resolves(t, fills) && Reserved(t, order) && ReservationOf(t, order).status == Active
    requires Consumes(t, fills, order, done, x)
    ensures Delivers(fills, a) && forall id <- a :: id in fills
    ensures FindReservation(IngestAll(t, fills, a).reservations, order).Some?
    ensures ReservationOf(IngestAll(t, fills, a), order).size.raw == Leftover(t, fills, order, done + {x})
  {
    hide Resolves, Reserved, IngestFill, IngestAll, TotalsAre, Leftover, FilledBy, FindReservation;
    ReservedIsFound(t, order);
    var first := DeliveryOf(done);
    assert forall id <- first :: id in Ids(first);
    ReservationOfIngested(t, fills, first, order);
    IngestMore(t, fills, first, x);
    TracksStep(t, fills, done, x, order, IngestAll(t, fills, first));
    var rest := DeliveryOf(fills.Keys - done - {x});
    assert forall id <- rest :: id in Ids(rest);
    a := first + [x] + rest;
    ConsumedStays(t, fills, first + [x], rest, order);
    assert Ids(a) == Ids(first + [x]) + Ids(rest);
  }

  /**
   All complete deliveries agree on the reservation if and only if it is not active to begin with, or whatever
   fills can come up to the one that consumes it leave the same of it.
   */
  lemma {:induction false} ReservationConvergesIff(t: Tables, fills: map<string, Fill>, order: nat)
    requires Resolves(t, fills) && Reserved(t, order)
    ensures ReservationConverges(t, fills, order) <==>
      || ReservationOf(t, order).status != Active
      || forall a: set<string>, x, b: set<string>, y |
           Consumes(t, fills, order, a, x) && Consumes(t, fills, order, b, y) ::
           Leftover(t, fills, order, a + {x}) == Leftover(t, fills, order, b + {y})
  {
    hide Resolves, Reserved, IngestAll, Leftover, Consumes, FilledBy, TotalsAre, FindReservation;
    ReservedIsFound(t, order);
    if ReservationConverges(t, fills, order) && ReservationOf(t, order).status == Active {
      forall a: set<string>, x, b: set<string>, y | Consumes(t, fills, order, a, x) && Consumes(t, fills, order, b, y)
        ensures Leftover(t, fills, order, a + {x}) == Leftover(t, fills, order, b + {y})
      {
        var p := ConsumedByDelivery(t, fills, order, a, x);
        var q := ConsumedByDelivery(t, fills, order, b, y);
        assert SameReservation(t, fills, order, p, q);
      }
    }
    if !ReservationConverges(t, fills, order) {
      var a, b :| Delivers(fills, a) && Delivers(fills, b) && !SameReservation(t, fills, order, a, b);
      DeliversOnly(fills, a);
      DeliversOnly(fills, b);
      ReservationOfIngested(t, fills, a, order);
      ReservationOfIngested(t, fills, b, order);
    }
  }

  // A run in which it does depend on the order.

  const PLACED: OrderRow := OrderRow(
    "c", None, "BTC", Buy, Decimal(10), Some(Decimal(SCALE)), Submitted, None, false, false, false, ZERO, None, None, 0)
  const PLACE: Step := Place(Placement(PLACED, false, true, 0, None, 0))

  /** The exchange reports half of the order filled before any of its fills is ingested. */
  const REPORT: Step := Transit(Transition("c", Some("1"), PartialFill, Decimal(5), None, None, "report", None))
  const CONFIG: Config := Config(None, 0)

  function FillOf(id: string, size: Decimal): Fill {
    Fill(id, ExchangeRef("1", "", "s", "BTC", Buy, None, None), size, Decimal(SCALE), ZERO, ZERO, ZERO)
  }

  lemma {:induction false} Placed()
    ensures var t := PersistPlacement(EMPTY, CONFIG, PLACE.placement).0;
      && t.orders == [PLACED.(revision := 1)] && |t.reservations| == 1 && t.inbox == {}
      && t.reservations[0].order == 0 && t.reservations[0].size.raw == 10 && t.reservations[0].status == Active
  {
    hide Mul;
    MulNonNegative(Decimal(10), Decimal(SCALE));
    var p := PLACE.placement;
    assert Dispatches(EMPTY, CONFIG, p);
    assert ReferencePrice(Request(PLACED), [], None) == Decimal(SCALE);
  }

  lemma {:induction false} Reported(t: Tables)
    requires t.orders == [PLACED.(revision := 1)]
    ensures var after := PersistTransition(t, REPORT.transition).0;
      && after.orders == [PLACED.(oid := Some("1"), status := PartialFill, filled := Decimal(5), revision := 2)]
      && after.reservations == t.reservations && after.inbox == t.inbox
  {
    assert FindByCloid(t.orders, "c") == Some(0);
  }

  const FOUR_AND_FIVE: map<string, Fill> := map["a" := FillOf("a", Decimal(4)), "b" := FillOf("b", Decimal(5))]

  /** A table with the order half filled by report and all of it reserved. */
  ghost predicate HalfReported(t: Tables) {
    && t.orders == [PLACED.(oid := Some("1"), status := PartialFill, filled := Decimal(5), revision := 2)]
    && |t.reservations| == 1 && t.inbox == {}
    && t.reservations[0].order == 0 && t.reservations[0].size.raw == 10 && t.reservations[0].status == Active
  }

  lemma {:induction false} FourAndFiveResolve(t: Tables)
    requires HalfReported(t)
    ensures Resolves(t, FOUR_AND_FIVE) && Reserved(t, 0)
    ensures FindReservation(t.reservations, 0) == Some(0) && Needed(t, 0) == 5
    ensures forall id <- FOUR_AND_FIVE ::
      Effective(t, FOUR_AND_FIVE, id) && TargetOf(t, FOUR_AND_FIVE[id]) == 0
  {
    assert FindByOid(t.orders, "1") == Some(0);
  }

  lemma {:induction false} FourAndFiveSums(t: Tables)
    requires HalfReported(t)
    ensures FilledBy(t, FOUR_AND_FIVE, {}, 0) == 0
    ensures FilledBy(t, FOUR_AND_FIVE, {"a"}, 0) == 4 && FilledBy(t, FOUR_AND_FIVE, {"b"}, 0) == 5
    ensures FilledBy(t, FOUR_AND_FIVE, {"a", "b"}, 0) == 9
  {
    FourAndFiveResolve(t);
    hide Effective;
    FilledByMore(t, FOUR_AND_FIVE, {}, 0, "a");
    FilledByMore(t, FOUR_AND_FIVE, {}, 0, "b");
    FilledByMore(t, FOUR_AND_FIVE, {"a"}, 0, "b");
    assert {} + {"a"} == {"a"} && {} + {"b"} == {"b"} && {"a"} + {"b"} == {"a", "b"};
  }

  lemma {:induction false} HalfReportedRun()
    ensures HalfReported(Run(EMPTY, CONFIG, [PLACE, REPORT]))
  {
    hide PersistPlacement, PersistTransition;
    assert [PLACE][..0] == [] && [PLACE, REPORT][..1] == [PLACE];
    assert Run(EMPTY, CONFIG, []) == EMPTY;
    Placed();
    Reported(PersistPlacement(EMPTY, CONFIG, PLACE.placement).0);
  }

  lemma {:induction false} RunOfFills(x: Fill, y: Fill)
    ensures Run(EMPTY, CONFIG, [PLACE, REPORT, TakeFill(x), TakeFill(y)])
      == IngestFill(IngestFill(Run(EMPTY, CONFIG, [PLACE, REPORT]), x).0, y).0
  {
    hide IngestFill, PersistPlacement, PersistTransition;
    assert [PLACE, REPORT, TakeFill(x), TakeFill(y)][..3] == [PLACE, REPORT, TakeFill(x)];
    assert [PLACE, REPORT, TakeFill(x)][..2] == [PLACE, REPORT];
  }

  /** Two fills of the half-reported order: 4 and then 5, or 5 and then 4. */
  lemma {:induction false} TwoFills(t: Tables)
    requires HalfReported(t)
    ensures var x := IngestFill(IngestFill(t, FOUR_AND_FIVE["a"]).0, FOUR_AND_FIVE["b"]).0;
      && FindReservation(x.reservations, 0).Some?
      && ReservationOf(x, 0).status == Consumed && ReservationOf(x, 0).size.raw == 1
    ensures var y := IngestFill(IngestFill(t, FOUR_AND_FIVE["b"]).0, FOUR_AND_FIVE["a"]).0;
      && FindReservation(y.reservations, 0).Some?
      && ReservationOf(y, 0).status == Consumed && ReservationOf(y, 0).size.raw == 5
  {
    hide IngestFill, TotalsAre, Effective, Resolves, Reserved, FindReservation, FilledBy;
    FourAndFiveResolve(t);
    FourAndFiveSums(t);
    NothingTracked(t, FOUR_AND_FIVE, 0);
    assert Ids([]) == {} && {} + {"a"} == {"a"} && {} + {"b"} == {"b"};
    assert {"a"} + {"b"} == {"a", "b"} && {"b"} + {"a"} == {"a", "b"};
    TracksStep(t, FOUR_AND_FIVE, {}, "a", 0, t);
    TracksStep(t, FOUR_AND_FIVE, {"a"}, "b", 0, IngestFill(t, FOUR_AND_FIVE["a"]).0);
    TracksStep(t, FOUR_AND_FIVE, {}, "b", 0, t);
    TracksStep(t, FOUR_AND_FIVE, {"b"}, "a", 0, IngestFill(t, FOUR_AND_FIVE["b"]).0);
  }

  /**
   A transport report raises the filled size without touching the reservation, so more is reserved than is left
   to fill: of the two fills, 4 and then 5 leave 1 of the consumed reservation, 5 and then 4 leave 5.
   */
  lemma {:induction false} LeftoverDependsOnOrder()
    ensures var x := Run(EMPTY, CONFIG, [PLACE, REPORT, TakeFill(FillOf("a", Decimal(4))), TakeFill(FillOf("b", Decimal(5)))]);
      var y := Run(EMPTY, CONFIG, [PLACE, REPORT, TakeFill(FillOf("b", Decimal(5))), TakeFill(FillOf("a", Decimal(4)))]);
      && FindReservation(x.reservations, 0).Some? && FindReservation(y.reservations, 0).Some?
      && ReservationOf(x, 0).status == Consumed && ReservationOf(x, 0).size.raw == 1
      && ReservationOf(y, 0).status == Consumed && ReservationOf(y, 0).size.raw == 5
  {
    hide IngestFill, Run, FindReservation;
    HalfReportedRun();
    var t := Run(EMPTY, CONFIG, [PLACE, REPORT]);
    TwoFills(t);
    RunOfFills(FOUR_AND_FIVE["a"], FOUR_AND_FIVE["b"]);
    RunOfFills(FOUR_AND_FIVE["b"], FOUR_AND_FIVE["a"]);
  }
}
