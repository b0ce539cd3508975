/**
 What a set of fills does to the projected position of a symbol: each perp fill overwrites it with the position
 the exchange reported at its start, moved by the fill, so the last one that arrives decides.
 */
module PositionConvergence {
  import opened DecimalCore
  import opened Options
  import opened RiskAdmission
  import opened OrderLedger
  import opened FillConvergence
  import opened ReservationConvergence

  lemma {:induction false} UpsertFinds(rows: seq<PositionRow>, symbol: string, size: Decimal, mark: Decimal, s: string)
    ensures FindPosition(UpsertPosition(rows, symbol, size, mark), s) ==
            if s == symbol then Some(PositionRow(symbol, size, Some(mark))) else FindPosition(rows, s)
  {
    if rows == [] {
      assert [PositionRow(symbol, size, Some(mark))][1..] == [];
    } else if rows[0].symbol != symbol {
      UpsertFinds(rows[1..], symbol, size, mark, s);
      var after := UpsertPosition(rows, symbol, size, mark);
      assert after[0] == rows[0] && after[1..] == UpsertPosition(rows[1..], symbol, size, mark);
    } else {
      assert UpsertPosition(rows, symbol, size, mark)[1..] == rows[1..];
    }
  }

  /** The order is known to the exchange and marked as spot; a client-id match without exchange id is marked anew. */
  ghost predicate Spot(o: OrderRow) { o.oid.Some? && o.isSpot }

  /** An effective fill that names a spot coin: from then on its order is spot. */
  ghost predicate MarksSpot(t: Tables, fills: map<string, Fill>, id: string, order: nat) {
    id in fills && Effective(t, fills, id) && TargetOf(t, fills[id]) == order && SpotCoin(fills[id].target.coin)
  }

  /** An effective fill that moves the symbol's position unless its order was marked as spot before. */
  ghost predicate Moves(t: Tables, fills: map<string, Fill>, s: string, id: string) {
    && id in fills && Effective(t, fills, id) && !SpotCoin(fills[id].target.coin)
    && var o := t.orders[TargetOf(t, fills[id])]; o.symbol == s && !Spot(o)
  }

  /** Some other fill can mark the fill's order as spot. */
  ghost predicate CanBePreempted(t: Tables, fills: map<string, Fill>, id: string)
    requires Effective(t, fills, id)
  {
    exists other :: MarksSpot(t, fills, other, TargetOf(t, fills[id]))
  }

  /** The position row a fill projects. */
  ghost function Projection(fills: map<string, Fill>, s: string, id: string): PositionRow
    requires id in fills
  {
    PositionRow(s, PositionAfterFill(fills[id]), Some(fills[id].price))
  }

  // --------------------------------------------------------------- one fill

  /** What an effective fill does to its order's mark and to the positions. */
  lemma {:induction false} FillMoves(u: Tables, f: Fill)
    requires Home(u.orders, f.target).Some? && RowAllowed(u.orders[TargetOf(u, f)])
    requires f.externalId !in u.inbox && FillAllowed(f)
    requires !(u.orders[TargetOf(u, f)].reduceOnly && SpotCoin(f.target.coin))
    ensures var i, after := TargetOf(u, f), IngestFill(u, f).0;
      var spot := Spot(u.orders[i]) || SpotCoin(f.target.coin);
      && |after.orders| == |u.orders| && Spot(after.orders[i]) == spot
      && (forall k | 0 <= k < |u.orders| && k != i :: after.orders[k] == u.orders[k])
      && after.positions == (if spot then u.positions
                             else UpsertPosition(u.positions, u.orders[i].symbol, PositionAfterFill(f), f.price))
  {
    hide Mul, Div, UpsertPosition, ConsumeReservation, FindOrCreate, Home, FilledRow;
    FoundIs(u.orders, f.target);
    var (found, i) := FindOrCreate(u.orders, f.target).value;
    FillKeepsColumns(found[i].(isSpot := found[i].isSpot || SpotCoin(f.target.coin)), f.size, f.price);
  }

  lemma {:induction false} FillKeepsColumns(o: OrderRow, size: Decimal, price: Decimal)
    requires o.filled.raw >= 0 && size.raw > 0
    ensures var after := FilledRow(o, size, price); after.oid == o.oid && after.isSpot == o.isSpot && after.symbol == o.symbol
  {
    hide Mul, Div;
  }

  lemma {:induction false} FoundIs(orders: seq<OrderRow>, x: ExchangeRef)
    requires Home(orders, x).Some? && RowAllowed(orders[Home(orders, x).value])
    requires !(orders[Home(orders, x).value].reduceOnly && SpotCoin(x.coin))
    ensures FindOrCreate(orders, x).Some?
    ensures var i := Home(orders, x).value;
      var (found, at) := FindOrCreate(orders, x).value;
      && at == i && |found| == |orders| && found[i].oid.Some? && found[i].symbol == orders[i].symbol && RowAllowed(found[i])
      && (forall k | 0 <= k < |orders| && k != i :: found[k] == orders[k])
      && found[i].reduceOnly == orders[i].reduceOnly
      && (found[i].isSpot || SpotCoin(x.coin)) == (Spot(orders[i]) || SpotCoin(x.coin))
  {
    hide FindByOid, FindByCloid;
  }

  /** The tables after some of the fills: which orders are marked as spot by then, and their symbols. */
  ghost predicate Marked(t: Tables, fills: map<string, Fill>, ids: set<string>, u: Tables) {
    && TotalsAre(t, fills, ids, u)
    && forall i | 0 <= i < |t.orders| :: MarkIs(t, fills, ids, i, u.orders[i])
  }

  ghost predicate MarkIs(t: Tables, fills: map<string, Fill>, ids: set<string>, i: nat, o: OrderRow)
    requires i < |t.orders|
  {
    && o.symbol == t.orders[i].symbol
    && (Spot(o) <==> Spot(t.orders[i]) || exists id :: id in ids && MarksSpot(t, fills, id, i))
  }

  lemma {:induction false} SymbolStays(t: Tables, fills: map<string, Fill>, ids: set<string>, u: Tables, i: nat)
    requires TotalsAre(t, fills, ids, u) && i < |t.orders|
    ensures u.orders[i].symbol == t.orders[i].symbol
  {
    assert OrderIs(t, fills, ids, u.orders[i], i);
  }

  lemma {:induction false} MarkStep(t: Tables, fills: map<string, Fill>, ids: set<string>, x: string, i: nat, o: OrderRow, after: OrderRow)
    requires i < |t.orders| && MarkIs(t, fills, ids, i, o) && after.symbol == o.symbol
    requires Spot(after) <==> Spot(o) || (x !in ids && MarksSpot(t, fills, x, i))
    ensures MarkIs(t, fills, ids + {x}, i, after)
  {
    hide MarksSpot, Spot;
    if x in ids {
      assert ids + {x} == ids;
    } else if MarksSpot(t, fills, x, i) {
      assert x in ids + {x};
    } else if id :| id in ids && MarksSpot(t, fills, id, i) {
      assert id in ids + {x};
    }
  }

  /** Whether the fill, delivered now, moves the symbol's position. */
  ghost predicate MovesNow(t: Tables, fills: map<string, Fill>, s: string, ids: set<string>, x: string) {
    && x !in ids && Moves(t, fills, s, x)
    && !exists id :: id in ids && MarksSpot(t, fills, id, TargetOf(t, fills[x]))
  }

  lemma {:induction false} MarkedStep(t: Tables, fills: map<string, Fill>, ids: set<string>, x: string, u: Tables, s: string)
    requires Resolves(t, fills) && x in fills && Marked(t, fills, ids, u)
    ensures var after := IngestFill(u, fills[x]).0;
      && Marked(t, fills, ids + {x}, after)
      && FindPosition(after.positions, s) ==
         if MovesNow(t, fills, s, ids, x) then Some(Projection(fills, s, x)) else FindPosition(u.positions, s)
  {
    hide IngestFill, TotalsAre, TookEffect, Home, Resolves, UpsertPosition, FindPosition, MarkIs, Spot;
    var f := fills[x];
    var after := IngestFill(u, f).0;
    HomeIsSome(t, fills, x);
    TotalsStep(t, fills, ids, x, u);
    EffectiveNow(t, fills, ids, x, u);
    IngestKnown(u, f);
    var target := TargetOf(t, f);
    SameLength(t, fills, ids, u);
    if x !in ids && Effective(t, fills, x) {
      FillMoves(u, f);
      SymbolStays(t, fills, ids, u, target);
      SymbolStays(t, fills, ids + {x}, after, target);
      assert MarkIs(t, fills, ids, target, u.orders[target]);
      MarkMeans(t, fills, ids, target, u.orders[target]);
      UpsertFinds(u.positions, u.orders[target].symbol, PositionAfterFill(f), f.price, s);
      forall i | 0 <= i < |t.orders| ensures MarkIs(t, fills, ids + {x}, i, after.orders[i]) {
        assert MarkIs(t, fills, ids, i, u.orders[i]);
        MarkStep(t, fills, ids, x, i, u.orders[i], after.orders[i]);
      }
    } else {
      forall i | 0 <= i < |t.orders| ensures MarkIs(t, fills, ids + {x}, i, after.orders[i]) {
        assert MarkIs(t, fills, ids, i, u.orders[i]);
        MarkStep(t, fills, ids, x, i, u.orders[i], after.orders[i]);
      }
    }
  }

  lemma {:induction false} SameLength(t: Tables, fills: map<string, Fill>, ids: set<string>, u: Tables)
    requires TotalsAre(t, fills, ids, u)
    ensures |u.orders| == |t.orders|
  {
  }

  lemma {:induction false} MarkMeans(t: Tables, fills: map<string, Fill>, ids: set<string>, i: nat, o: OrderRow)
    requires i < |t.orders| && MarkIs(t, fills, ids, i, o)
    ensures Spot(o) <==> Spot(t.orders[i]) || exists id :: id in ids && MarksSpot(t, fills, id, i)
  {
  }

  lemma {:induction false} NothingMarked(t: Tables, fills: map<string, Fill>)
    requires Resolves(t, fills)
    ensures Marked(t, fills, {}, t)
  {
    NothingIngested(t, fills);
    assert Ids([]) == {};
  }

  // ------------------------------------------------------------- deliveries

  ghost function PositionOf(t: Tables, s: string): Option<PositionRow> { FindPosition(t.positions, s) }

  /** Some fill of the set moved the position last, or none could because of orders marked as spot. */
  ghost predicate PositionIs(t: Tables, fills: map<string, Fill>, ids: set<string>, s: string, p: Option<PositionRow>) {
    || (p == PositionOf(t, s) && forall x | x in ids && Moves(t, fills, s, x) :: CanBePreempted(t, fills, x))
    || exists x :: x in ids && Moves(t, fills, s, x) && p == Some(Projection(fills, s, x))
  }

  lemma {:induction false} PositionIsStep(
    t: Tables, fills: map<string, Fill>, ids: set<string>, s: string, x: string, p: Option<PositionRow>, p': Option<PositionRow>)
    requires PositionIs(t, fills, ids, s, p) && x in fills
    requires p' == if MovesNow(t, fills, s, ids, x) then Some(Projection(fills, s, x)) else p
    ensures PositionIs(t, fills, ids + {x}, s, p')
  {
    hide Effective, Home, MarksSpot, PositionOf;
    if MovesNow(t, fills, s, ids, x) {
      assert x in ids + {x};
    } else if y :| y in ids && Moves(t, fills, s, y) && p == Some(Projection(fills, s, y)) {
      assert y in ids + {x};
    } else {
      forall y | y in ids + {x} && Moves(t, fills, s, y) ensures CanBePreempted(t, fills, y) {}
    }
  }

  lemma {:induction false} PositionOfIngested(t: Tables, fills: map<string, Fill>, ids: seq<string>, s: string)
    requires Resolves(t, fills) && forall id <- ids :: id in fills
    ensures Marked(t, fills, Ids(ids), IngestAll(t, fills, ids))
    ensures PositionIs(t, fills, Ids(ids), s, PositionOf(IngestAll(t, fills, ids), s))
  {
    hide Resolves, IngestFill, Marked, MovesNow, Moves;
    if ids == [] {
      NothingMarked(t, fills);
      assert Ids(ids) == {};
    } else {
      var front, x := ids[..|ids| - 1], ids[|ids| - 1];
      PositionOfIngested(t, fills, front, s);
      MarkedStep(t, fills, Ids(front), x, IngestAll(t, fills, front), s);
      PositionIsStep(t, fills, Ids(front), s, x, PositionOf(IngestAll(t, fills, front), s), PositionOf(IngestAll(t, fills, ids), s));
      IdsOfMore(ids);
    }
  }

  /** Fills none of which moves the position when its turn comes leave it alone. */
  lemma {:induction false} QuietFills(t: Tables, fills: map<string, Fill>, ids: seq<string>, later: seq<string>, s: string)
    requires Resolves(t, fills) && (forall id <- ids :: id in fills) && (forall id <- later :: id in fills)
    requires forall k | 0 <= k < |later| :: !MovesNow(t, fills, s, Ids(ids + later[..k]), later[k])
    ensures PositionOf(IngestAll(t, fills, ids + later), s) == PositionOf(IngestAll(t, fills, ids), s)
  {
    hide Resolves, IngestFill, IngestAll, Marked, MovesNow;
    if later == [] {
      assert ids + later == ids;
    } else {
      var n := |later| - 1;
      var front, x := ids + later[..n], later[n];
      forall k | 0 <= k < n ensures !MovesNow(t, fills, s, Ids(ids + later[..n][..k]), later[..n][k]) {
        assert later[..n][..k] == later[..k];
      }
      QuietFills(t, fills, ids, later[..n], s);
      assert ids + later == front + [x];
      IngestMore(t, fills, front, x);
      PositionOfIngested(t, fills, front, s);
      MarkedStep(t, fills, Ids(front), x, IngestAll(t, fills, front), s);
      assert !MovesNow(t, fills, s, Ids(ids + later[..n]), later[n]);
    }
  }

  ghost function Movers(t: Tables, fills: map<string, Fill>, s: string): set<string> {
    set id | id in fills && Moves(t, fills, s, id)
  }

  /** Some complete delivery lets a given fill move the position last. */
  lemma {:induction false} LastMover(t: Tables, fills: map<string, Fill>, s: string, x: string) returns (a: seq<string>)
    requires Resolves(t, fills) && x in fills && Moves(t, fills, s, x)
    ensures Delivers(fills, a) && forall id <- a :: id in fills
    ensures PositionOf(IngestAll(t, fills, a), s) == Some(Projection(fills, s, x))
  {
    hide Resolves, IngestFill, IngestAll, Marked, Effective, Home;
    var first := DeliveryOf(Movers(t, fills, s) - {x});
    var rest := DeliveryOf(fills.Keys - Movers(t, fills, s));
    forall id <- first ensures id in fills && id != x { assert id in Ids(first); }
    forall id <- rest ensures id in fills && !Moves(t, fills, s, id) { assert id in Ids(rest); }
    PositionOfIngested(t, fills, first, s);
    MarkedStep(t, fills, Ids(first), x, IngestAll(t, fills, first), s);
    assert MovesNow(t, fills, s, Ids(first), x);
    IngestMore(t, fills, first, x);
    a := first + [x] + rest;
    QuietFills(t, fills, first + [x], rest, s);
    assert Ids(a) == Ids(first) + {x} + Ids(rest);
  }

  /** If every mover can be preempted, some complete delivery leaves the position as it was. */
  lemma {:induction false} NoMover(t: Tables, fills: map<string, Fill>, s: string) returns (a: seq<string>)
    requires Resolves(t, fills)
    requires forall x | Moves(t, fills, s, x) :: CanBePreempted(t, fills, x)
    ensures Delivers(fills, a) && forall id <- a :: id in fills
    ensures PositionOf(IngestAll(t, fills, a), s) == PositionOf(t, s)
  {
    hide Resolves, IngestFill, Marked, Effective, Home, CanBePreempted, MarksSpot;
    var first := DeliveryOf(fills.Keys - Movers(t, fills, s));
    var rest := DeliveryOf(Movers(t, fills, s));
    forall id <- first ensures id in fills && !Moves(t, fills, s, id) { assert id in Ids(first); }
    forall id <- rest ensures id in fills { assert id in Ids(rest); }
    a := first + rest;
    forall k | 0 <= k < |a| ensures !MovesNow(t, fills, s, Ids([] + a[..k]), a[k]) {
      if k >= |first| && Moves(t, fills, s, a[k]) {
        assert [] + a[..k] == first + rest[..k - |first|];
        PreemptedNow(t, fills, s, Ids([] + a[..k]), a[k]);
      }
    }
    assert [] + a == a;
    QuietFills(t, fills, [], a, s);
    assert Ids(a) == Ids(first) + Ids(rest);
  }

  lemma {:induction false} PreemptedNow(t: Tables, fills: map<string, Fill>, s: string, ids: set<string>, x: string)
    requires Moves(t, fills, s, x) && CanBePreempted(t, fills, x)
    requires fills.Keys - Movers(t, fills, s) <= ids
    ensures !MovesNow(t, fills, s, ids, x)
  {
    var other :| MarksSpot(t, fills, other, TargetOf(t, fills[x]));
    hide Effective, Home;
    assert other in fills.Keys - Movers(t, fills, s);
  }

  /** Every two complete deliveries end with the same position row of the symbol. */
  ghost predicate PositionConverges(t: Tables, fills: map<string, Fill>, s: string) {
    forall a, b | Delivers(fills, a) && Delivers(fills, b) :: AgreeOnPosition(t, fills, s, a, b)
  }

  ghost predicate AgreeOnPosition(t: Tables, fills: map<string, Fill>, s: string, a: seq<string>, b: seq<string>) {
    && (forall id <- a :: id in fills) && (forall id <- b :: id in fills)
    && PositionOf(IngestAll(t, fills, a), s) == PositionOf(IngestAll(t, fills, b), s)
  }

  /**
   All complete deliveries agree on a symbol's position if and only if its effective perp fills project the same
   size and mark, and project what is there already in case fills that mark their orders as spot can preempt all.
   */
  lemma {:induction false} PositionConvergesIff(t: Tables, fills: map<string, Fill>, s: string)
    requires Resolves(t, fills)
    ensures PositionConverges(t, fills, s) <==>
      && (forall x, y | Moves(t, fills, s, x) && Moves(t, fills, s, y) ::
            Projection(fills, s, x) == Projection(fills, s, y))
      && ((forall x | Moves(t, fills, s, x) :: CanBePreempted(t, fills, x)) ==>
            forall x | Moves(t, fills, s, x) :: PositionOf(t, s) == Some(Projection(fills, s, x)))
  {
    hide Resolves, IngestAll, Effective, Home, MarksSpot, CanBePreempted, Marked, PositionOf, Projection;
    if PositionConverges(t, fills, s) {
      forall x, y | Moves(t, fills, s, x) && Moves(t, fills, s, y)
        ensures Projection(fills, s, x) == Projection(fills, s, y)
      {
        MoverIsFill(t, fills, s, x);
        MoverIsFill(t, fills, s, y);
        var a := LastMover(t, fills, s, x);
        var b := LastMover(t, fills, s, y);
        assert AgreeOnPosition(t, fills, s, a, b);
      }
      if forall x | Moves(t, fills, s, x) :: CanBePreempted(t, fills, x) {
        forall x | Moves(t, fills, s, x) ensures PositionOf(t, s) == Some(Projection(fills, s, x)) {
          MoverIsFill(t, fills, s, x);
          var a := LastMover(t, fills, s, x);
          var b := NoMover(t, fills, s);
          assert AgreeOnPosition(t, fills, s, a, b);
        }
      }
    } else {
      var a, b :| Delivers(fills, a) && Delivers(fills, b) && !AgreeOnPosition(t, fills, s, a, b);
      DeliversOnly(fills, a);
      DeliversOnly(fills, b);
      PositionOfIngested(t, fills, a, s);
      PositionOfIngested(t, fills, b, s);
      MoversAreDelivered(t, fills, s, a);
    }
  }

  lemma {:induction false} MoverIsFill(t: Tables, fills: map<string, Fill>, s: string, x: string)
    requires Moves(t, fills, s, x)
    ensures x in fills
  {
  }

  lemma {:induction false} MoversAreDelivered(t: Tables, fills: map<string, Fill>, s: string, a: seq<string>)
    requires Delivers(fills, a)
    ensures forall x | Moves(t, fills, s, x) :: x in Ids(a)
  {
    hide Home;
  }

  // A run in which an older fill sets the position back.

  /** The older fill starts flat, the newer one where the older ended. */
  const OLDER: Fill := FillOf("a", Decimal(4))
  const NEWER: Fill := FillOf("b", Decimal(1)).(start := Decimal(4))
  const BOTH: map<string, Fill> := map["a" := OLDER, "b" := NEWER]

  lemma {:induction false} BothResolve(t: Tables)
    requires HalfReported(t)
    ensures Resolves(t, BOTH) && Moves(t, BOTH, "BTC", "a") && Moves(t, BOTH, "BTC", "b")
    ensures forall id :: !MarksSpot(t, BOTH, id, 0)
    ensures TargetOf(t, OLDER) == TargetOf(t, NEWER) == 0
  {
    assert FindByOid(t.orders, "1") == Some(0);
  }

  lemma {:induction false} OlderAfterNewer(t: Tables)
    requires HalfReported(t)
    ensures PositionOf(IngestFill(IngestFill(t, NEWER).0, OLDER).0, "BTC") == Some(PositionRow("BTC", Decimal(4), Some(Decimal(SCALE))))
    ensures PositionOf(IngestFill(IngestFill(t, OLDER).0, NEWER).0, "BTC") == Some(PositionRow("BTC", Decimal(5), Some(Decimal(SCALE))))
  {
    hide IngestFill, Marked, Moves, MarksSpot, Resolves, Home, Effective;
    BothResolve(t);
    NothingMarked(t, BOTH);
    MarkedStep(t, BOTH, {}, "a", t, "BTC");
    MarkedStep(t, BOTH, {}, "b", t, "BTC");
    assert {} + {"a"} == {"a"} && {} + {"b"} == {"b"};
    MarkedStep(t, BOTH, {"a"}, "b", IngestFill(t, OLDER).0, "BTC");
    MarkedStep(t, BOTH, {"b"}, "a", IngestFill(t, NEWER).0, "BTC");
    assert MovesNow(t, BOTH, "BTC", {"a"}, "b") && MovesNow(t, BOTH, "BTC", {"b"}, "a");
  }

  /** Delivered in order the two fills end at a position of 5; with the older one last, at 4. */
  lemma {:induction false} LateFillSetsPositionBack()
    ensures var x := Run(EMPTY, CONFIG, [PLACE, REPORT, TakeFill(OLDER), TakeFill(NEWER)]);
      var y := Run(EMPTY, CONFIG, [PLACE, REPORT, TakeFill(NEWER), TakeFill(OLDER)]);
      && PositionSize(x.positions, "BTC") == Decimal(5)
      && PositionSize(y.positions, "BTC") == Decimal(4)
  {
    hide IngestFill, Run, FindPosition;
    HalfReportedRun();
    OlderAfterNewer(Run(EMPTY, CONFIG, [PLACE, REPORT]));
    RunOfFills(OLDER, NEWER);
    RunOfFills(NEWER, OLDER);
  }
}
