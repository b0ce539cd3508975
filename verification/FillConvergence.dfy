/**
 Fill ingestion converges: what a set of fills does to sizes, statuses, revisions and ledger sums does
 not depend on the order or the number of times the fills arrive.
 */
module FillConvergence {
  import opened Arith
  import opened DecimalCore
  import opened Options
  import opened RiskAdmission
  import opened OrderLedger
  import opened ReservationConservation

  // ------------------------------------------------------------ sums over sets

  ghost function SetSum(ids: set<string>, v: string -> int): int {
    if ids == {} then 0 else
    var x :| x in ids;
    v(x) + SetSum(ids - {x}, v)
  }

  lemma {:induction false} SetSumPick(ids: set<string>, v: string -> int, x: string)
    requires x in ids
    ensures SetSum(ids, v) == v(x) + SetSum(ids - {x}, v)
  {
    var y :| y in ids && SetSum(ids, v) == v(y) + SetSum(ids - {y}, v);
    if y != x {
      SetSumPick(ids - {y}, v, x);
      SetSumPick(ids - {x}, v, y);
      assert ids - {y} - {x} == ids - {x} - {y};
    }
  }

  lemma {:induction false} SetSumAdd(ids: set<string>, v: string -> int, x: string)
    ensures SetSum(ids + {x}, v) == SetSum(ids, v) + (if x in ids then 0 else v(x))
  {
    if x in ids {
      assert ids + {x} == ids;
    } else {
      SetSumPick(ids + {x}, v, x);
      assert ids + {x} - {x} == ids;
    }
  }

  // ------------------------------------------------------------ the fills

  /** The order of the ledger a fill belongs to: by exchange id, or by a client id that has none yet. */
  ghost function Home(orders: seq<OrderRow>, x: ExchangeRef): (r: Option<nat>)
    ensures r.Some? ==> r.value < |orders|
  {
    var byOid := FindByOid(orders, x.oid);
    var byCloid := if CanonicalCloid(x.cloid) then FindByCloid(orders, x.cloid) else None;
    if byOid.Some? then byOid
    else if byCloid.Some? && orders[byCloid.value].oid.None? then byCloid
    else None
  }

  /** Fills with one exchange id belong to one order, and fills of an order without one bring the same. */
  ghost predicate Consistent(orders: seq<OrderRow>, x: ExchangeRef, y: ExchangeRef) {
    && (x.oid == y.oid ==> Home(orders, x) == Home(orders, y))
    && (Home(orders, x) == Home(orders, y) && Home(orders, x).Some? && orders[Home(orders, x).value].oid.None? ==>
          x.oid == y.oid)
  }

  /** External ids name fills, and every fill belongs to an order of the ledger. */
  ghost predicate Resolves(t: Tables, fills: map<string, Fill>) {
    && (forall i | 0 <= i < |t.orders| :: RowAllowed(t.orders[i]))
    && (forall id <- fills :: fills[id].externalId == id && Home(t.orders, fills[id].target).Some?)
    && forall a, b | a in fills && b in fills :: Consistent(t.orders, fills[a].target, fills[b].target)
  }

  ghost function TargetOf(t: Tables, f: Fill): (r: nat)
    requires Home(t.orders, f.target).Some?
    ensures r < |t.orders|
  {
    Home(t.orders, f.target).value
  }

  /** Whether a fill takes effect the first time it is ingested. */
  ghost predicate Effective(t: Tables, fills: map<string, Fill>, id: string) {
    && id in fills && id !in t.inbox
    && FillAllowed(fills[id])
    && Home(t.orders, fills[id].target).Some?
    && !(t.orders[TargetOf(t, fills[id])].reduceOnly && SpotCoin(fills[id].target.coin))
  }

  function IngestAll(t: Tables, fills: map<string, Fill>, ids: seq<string>): Tables
    requires forall id <- ids :: id in fills
  {
    if ids == [] then t else
    IngestFill(IngestAll(t, fills, ids[..|ids| - 1]), fills[ids[|ids| - 1]]).0
  }

  ghost function Ids(ids: seq<string>): set<string> { set id | id in ids }

  // What each fill contributes to the totals of an order and of the ledger.

  ghost function SizeFor(t: Tables, fills: map<string, Fill>, order: nat): string -> int {
    id => if Effective(t, fills, id) && TargetOf(t, fills[id]) == order then fills[id].size.raw else 0
  }

  ghost function CountFor(t: Tables, fills: map<string, Fill>, order: nat): string -> int {
    id => if Effective(t, fills, id) && TargetOf(t, fills[id]) == order then 1 else 0
  }

  ghost function AmountOf(t: Tables, fills: map<string, Fill>, kind: EntryKind): string -> int {
    id => if !Effective(t, fills, id) then 0
          else if kind == RealizedPnl then fills[id].pnl.raw else Neg(fills[id].fee).raw
  }

  ghost function EntrySum(entries: seq<EntryRow>, kind: EntryKind): int {
    if entries == [] then 0 else
    var e := entries[|entries| - 1];
    EntrySum(entries[..|entries| - 1], kind) + (if e.kind == kind then e.amount.raw else 0)
  }

  ghost function StatusAfter(o: OrderRow, filled: int, count: int): OrderStatus {
    if count == 0 then o.status
    else if filled >= o.size.raw then Filled
    else if o.status in {Cancelled, Rejected, Expired} then o.status
    else PartialFill
  }

  /** The order's exchange id, or the one that fills of the order brought. */
  ghost predicate OidIs(t: Tables, fills: map<string, Fill>, oid: Option<string>, order: nat)
    requires order < |t.orders|
  {
    oid == t.orders[order].oid
    || (t.orders[order].oid.None?
        && exists id :: id in fills && Home(t.orders, fills[id].target) == Some(order) && oid == Some(fills[id].target.oid))
  }

  /** The columns of an order after a set of fills, as totals over the set. */
  ghost predicate OrderIs(t: Tables, fills: map<string, Fill>, ids: set<string>, after: OrderRow, order: nat)
    requires order < |t.orders|
  {
    var o := t.orders[order];
    var filled := Min(o.size.raw, o.filled.raw + SetSum(ids, SizeFor(t, fills, order)));
    var count := SetSum(ids, CountFor(t, fills, order));
    && count >= 0
    && after.filled.raw == filled
    && after.status == StatusAfter(o, filled, count)
    && after.revision == o.revision + count
    && after == o.(filled := after.filled, avg := after.avg, status := after.status,
                   revision := after.revision, isSpot := after.isSpot, oid := after.oid)
    && OidIs(t, fills, after.oid, order) && (after.oid.Some? <==> o.oid.Some? || count > 0)
    && RowAllowed(after)
  }

  ghost predicate TotalsAre(t: Tables, fills: map<string, Fill>, ids: set<string>, after: Tables) {
    && |after.orders| == |t.orders|
    && (forall i | 0 <= i < |t.orders| :: OrderIs(t, fills, ids, after.orders[i], i))
    && (forall kind :: EntrySum(after.entries, kind) == EntrySum(t.entries, kind) + SetSum(ids, AmountOf(t, fills, kind)))
    && after.inbox == t.inbox + set id | id in ids && Effective(t, fills, id)
  }

  // ------------------------------------------------------------ one more fill

  lemma {:induction false} SameOidSameOrder(a: seq<OrderRow>, b: seq<OrderRow>, oid: string)
    requires |a| == |b| && forall i | 0 <= i < |a| :: a[i].oid == Some(oid) <==> b[i].oid == Some(oid)
    ensures FindByOid(a, oid) == FindByOid(b, oid)
  {
    if a != [] { SameOidSameOrder(a[..|a| - 1], b[..|b| - 1], oid); }
  }

  lemma {:induction false} SameCloidsSameOrder(a: seq<OrderRow>, b: seq<OrderRow>, cloid: string)
    requires |a| == |b| && forall i | 0 <= i < |a| :: a[i].cloid == b[i].cloid
    ensures FindByCloid(a, cloid) == FindByCloid(b, cloid)
  {
    if a != [] { SameCloidsSameOrder(a[..|a| - 1], b[..|b| - 1], cloid); }
  }

  /** An order row after one more fill, which brings the exchange id if there was none. */
  ghost predicate OneMoreFill(o: OrderRow, after: OrderRow, size: int, oid: string) {
    && after.filled.raw == Min(o.size.raw, o.filled.raw + size)
    && after.status == StatusAfter(o, after.filled.raw, 1)
    && after == o.(filled := after.filled, avg := after.avg, status := after.status,
                   revision := o.revision + 1, isSpot := after.isSpot,
                   oid := if o.oid.Some? then o.oid else Some(oid))
    && RowAllowed(after)
  }

  /** The tables after a fill took effect on order i, apart from prices, positions and logs. */
  ghost predicate TookEffect(t: Tables, f: Fill, i: nat, after: Tables) {
    && i < |t.orders| && |after.orders| == |t.orders|
    && (forall k | 0 <= k < |t.orders| && k != i :: after.orders[k] == t.orders[k])
    && OneMoreFill(t.orders[i], after.orders[i], f.size.raw, f.target.oid)
    && after.entries == t.entries + [EntryRow(f.externalId, RealizedPnl, f.pnl), EntryRow(f.externalId, Fee, Neg(f.fee))]
    && after.inbox == t.inbox + {f.externalId}
    && after.reservations == ConsumeReservation(t.reservations, i, f.size, after.orders[i].status)
  }

  /** What the lookup returns for a fill of a known order: the order, with its exchange id adopted. */
  lemma {:induction false} HomeIsFound(orders: seq<OrderRow>, x: ExchangeRef)
    requires Home(orders, x).Some? && RowAllowed(orders[Home(orders, x).value])
    ensures var i := Home(orders, x).value;
      var found := FindOrCreate(orders, x);
      if found.None? then orders[i].reduceOnly && SpotCoin(x.coin)
      else
        && found.value.1 == i && |found.value.0| == |orders|
        && (forall k | 0 <= k < |orders| && k != i :: found.value.0[k] == orders[k])
        && var o := found.value.0[i];
           && o == orders[i].(oid := if orders[i].oid.Some? then orders[i].oid else Some(x.oid), isSpot := o.isSpot)
           && RowAllowed(o)
  {
    hide FindByOid, FindByCloid;
  }

  lemma {:induction false} IngestKnown(t: Tables, f: Fill)
    requires Home(t.orders, f.target).Some? && RowAllowed(t.orders[TargetOf(t, f)])
    ensures var after := IngestFill(t, f).0;
      var o := t.orders[TargetOf(t, f)];
      if f.externalId in t.inbox || !FillAllowed(f) || (o.reduceOnly && SpotCoin(f.target.coin)) then after == t
      else TookEffect(t, f, TargetOf(t, f), after)
  {
    hide Mul, Div, UpsertPosition, ConsumeReservation, FindOrCreate, Home;
    HomeIsFound(t.orders, f.target);
    var found := FindOrCreate(t.orders, f.target);
    if found.Some? {
      var o := found.value.0[TargetOf(t, f)];
      var row := o.(isSpot := o.isSpot || SpotCoin(f.target.coin));
      if FillAllowed(f) && RowAllowed(row) { FillColumns(row, f.size, f.price); }
    }
  }

  lemma {:induction false} EntrySumTwo(entries: seq<EntryRow>, a: EntryRow, b: EntryRow, kind: EntryKind)
    ensures EntrySum(entries + [a, b], kind) == EntrySum(entries, kind)
            + (if a.kind == kind then a.amount.raw else 0) + (if b.kind == kind then b.amount.raw else 0)
  {
    assert entries + [a, b] == (entries + [a]) + [b];
    assert (entries + [a] + [b])[..|entries| + 1] == entries + [a];
    assert (entries + [a])[..|entries|] == entries;
  }

  /** The fill changes an order's totals by exactly its contribution. */
  lemma {:induction false} OrderStep(
    t: Tables, fills: map<string, Fill>, ids: set<string>, x: string, before: OrderRow, after: OrderRow, order: nat)
    requires order < |t.orders| && OrderIs(t, fills, ids, before, order)
    requires if x !in ids && Effective(t, fills, x) && TargetOf(t, fills[x]) == order then
               fills[x].size.raw > 0 && OneMoreFill(before, after, fills[x].size.raw, fills[x].target.oid)
             else after == before
    ensures OrderIs(t, fills, ids + {x}, after, order)
  {
    SetSumAdd(ids, SizeFor(t, fills, order), x);
    SetSumAdd(ids, CountFor(t, fills, order), x);
  }

  lemma {:induction false} EntriesStep(t: Tables, fills: map<string, Fill>, ids: set<string>, x: string, before: seq<EntryRow>, kind: EntryKind)
    requires x !in ids && Effective(t, fills, x)
    requires EntrySum(before, kind) == EntrySum(t.entries, kind) + SetSum(ids, AmountOf(t, fills, kind))
    ensures var f := fills[x];
      EntrySum(before + [EntryRow(f.externalId, RealizedPnl, f.pnl), EntryRow(f.externalId, Fee, Neg(f.fee))], kind)
      == EntrySum(t.entries, kind) + SetSum(ids + {x}, AmountOf(t, fills, kind))
  {
    var f := fills[x];
    EntrySumTwo(before, EntryRow(f.externalId, RealizedPnl, f.pnl), EntryRow(f.externalId, Fee, Neg(f.fee)), kind);
    SetSumAdd(ids, AmountOf(t, fills, kind), x);
  }

  /** A fill that takes no effect now contributes nothing to any total. */
  lemma {:induction false} IdleStep(t: Tables, fills: map<string, Fill>, ids: set<string>, x: string, u: Tables)
    requires TotalsAre(t, fills, ids, u) && (x in ids || !Effective(t, fills, x))
    ensures TotalsAre(t, fills, ids + {x}, u)
  {
    hide OrderIs, EntrySum, Effective;
    forall i | 0 <= i < |t.orders| ensures OrderIs(t, fills, ids + {x}, u.orders[i], i) {
      OrderStep(t, fills, ids, x, u.orders[i], u.orders[i], i);
    }
    forall kind ensures SetSum(ids + {x}, AmountOf(t, fills, kind)) == SetSum(ids, AmountOf(t, fills, kind)) {
      SetSumAdd(ids, AmountOf(t, fills, kind), x);
    }
    assert forall id :: (id in ids + {x} && Effective(t, fills, id)) <==> (id in ids && Effective(t, fills, id));
  }

  /** An order that carries a fill's exchange id after some fills is the fill's own, or carried it before. */
  lemma {:induction false} CarriesOid(t: Tables, fills: map<string, Fill>, ids: set<string>, x: string, u: Tables, i: nat)
    requires Resolves(t, fills) && x in fills && TotalsAre(t, fills, ids, u) && i < |t.orders|
    ensures u.orders[i].oid == Some(fills[x].target.oid) ==>
      t.orders[i].oid == Some(fills[x].target.oid) || (t.orders[i].oid.None? && Home(t.orders, fills[x].target) == Some(i))
    ensures t.orders[i].oid.Some? ==> u.orders[i].oid == t.orders[i].oid
    ensures t.orders[i].oid.None? && Home(t.orders, fills[x].target) == Some(i) ==>
      u.orders[i].oid.None? || u.orders[i].oid == Some(fills[x].target.oid)
  {
    hide Home, SetSum, EntrySum, Effective;
    assert OrderIs(t, fills, ids, u.orders[i], i);
    assert OidIs(t, fills, u.orders[i].oid, i);
    if u.orders[i].oid != t.orders[i].oid {
      var id :| id in fills && Home(t.orders, fills[id].target) == Some(i) && u.orders[i].oid == Some(fills[id].target.oid);
      assert Consistent(t.orders, fills[x].target, fills[id].target);
    }
  }

  /** A fill belongs to the same order throughout, whether or not its exchange id has been adopted meanwhile. */
  lemma {:induction false} SameHome(t: Tables, fills: map<string, Fill>, ids: set<string>, x: string, u: Tables)
    requires Resolves(t, fills) && x in fills && TotalsAre(t, fills, ids, u)
    ensures Home(u.orders, fills[x].target) == Home(t.orders, fills[x].target)
  {
    hide TotalsAre, Resolves, FindByOid, FindByCloid;
    var target := fills[x].target;
    SameColumns(t, fills, ids, u);
    forall i | 0 <= i < |t.orders|
      ensures u.orders[i].oid == Some(target.oid) ==>
        t.orders[i].oid == Some(target.oid) || (t.orders[i].oid.None? && Home(t.orders, target) == Some(i))
      ensures t.orders[i].oid.Some? ==> u.orders[i].oid == t.orders[i].oid
      ensures t.orders[i].oid.None? && Home(t.orders, target) == Some(i) ==>
        u.orders[i].oid.None? || u.orders[i].oid == Some(target.oid)
    {
      CarriesOid(t, fills, ids, x, u, i);
    }
    HomeIsSome(t, fills, x);
    SameCloidsSameOrder(t.orders, u.orders, target.cloid);
    if FindByOid(t.orders, target.oid).Some? { SameOidSameOrder(t.orders, u.orders, target.oid); }
  }

  lemma {:induction false} HomeIsSome(t: Tables, fills: map<string, Fill>, x: string)
    requires Resolves(t, fills) && x in fills
    ensures Home(t.orders, fills[x].target).Some? && fills[x].externalId == x
  {
  }

  /** Client ids and the reduce-only flag do not change while fills are ingested. */
  lemma {:induction false} SameColumns(t: Tables, fills: map<string, Fill>, ids: set<string>, u: Tables)
    requires TotalsAre(t, fills, ids, u)
    ensures |u.orders| == |t.orders|
    ensures forall i | 0 <= i < |t.orders| :: u.orders[i].cloid == t.orders[i].cloid
    ensures forall i | 0 <= i < |t.orders| :: u.orders[i].reduceOnly == t.orders[i].reduceOnly && RowAllowed(u.orders[i])
  {
    hide SetSum, EntrySum, Effective, OidIs;
    assert forall i | 0 <= i < |t.orders| :: OrderIs(t, fills, ids, u.orders[i], i);
  }

  /** A fill takes effect now exactly when it is effective and new. */
  lemma {:induction false} EffectiveNow(t: Tables, fills: map<string, Fill>, ids: set<string>, x: string, u: Tables)
    requires Resolves(t, fills) && x in fills && TotalsAre(t, fills, ids, u)
    ensures Home(u.orders, fills[x].target) == Home(t.orders, fills[x].target)
    ensures Home(u.orders, fills[x].target).Some? && RowAllowed(u.orders[TargetOf(t, fills[x])])
    ensures var f := fills[x];
      (f.externalId !in u.inbox && FillAllowed(f) && !(u.orders[TargetOf(t, f)].reduceOnly && SpotCoin(f.target.coin)))
      <==> (x !in ids && Effective(t, fills, x))
  {
    hide Home, OrderIs, SetSum, EntrySum, Consistent;
    SameHome(t, fills, ids, x, u);
    SameColumns(t, fills, ids, u);
  }

  lemma {:induction false} ActiveStep(t: Tables, fills: map<string, Fill>, ids: set<string>, x: string, u: Tables, after: Tables)
    requires x in fills && fills[x].externalId == x && TotalsAre(t, fills, ids, u)
    requires x !in ids && Effective(t, fills, x)
    requires TookEffect(u, fills[x], TargetOf(t, fills[x]), after)
    ensures TotalsAre(t, fills, ids + {x}, after)
  {
    hide EntrySum, Home, SetSum, OrderIs, OneMoreFill, ConsumeReservation;
    forall i | 0 <= i < |t.orders| ensures OrderIs(t, fills, ids + {x}, after.orders[i], i) {
      OrderStep(t, fills, ids, x, u.orders[i], after.orders[i], i);
    }
    forall kind ensures EntrySum(after.entries, kind) == EntrySum(t.entries, kind) + SetSum(ids + {x}, AmountOf(t, fills, kind)) {
      EntriesStep(t, fills, ids, x, u.entries, kind);
    }
    assert after.inbox == t.inbox + set id | id in ids + {x} && Effective(t, fills, id);
  }

  lemma {:induction false} TotalsStep(t: Tables, fills: map<string, Fill>, ids: set<string>, x: string, u: Tables)
    requires Resolves(t, fills) && x in fills && TotalsAre(t, fills, ids, u)
    ensures TotalsAre(t, fills, ids + {x}, IngestFill(u, fills[x]).0)
  {
    hide IngestFill, TotalsAre, TookEffect, Effective, Home, Resolves;
    HomeIsSome(t, fills, x);
    EffectiveNow(t, fills, ids, x, u);
    IngestKnown(u, fills[x]);
    if x !in ids && Effective(t, fills, x) {
      ActiveStep(t, fills, ids, x, u, IngestFill(u, fills[x]).0);
    } else {
      IdleStep(t, fills, ids, x, u);
    }
  }

  lemma {:induction false} IdsOfMore(ids: seq<string>)
    requires ids != []
    ensures Ids(ids) == Ids(ids[..|ids| - 1]) + {ids[|ids| - 1]}
  {
    assert ids == ids[..|ids| - 1] + [ids[|ids| - 1]];
  }

  lemma {:induction false} NothingIngested(t: Tables, fills: map<string, Fill>)
    requires Resolves(t, fills)
    ensures TotalsAre(t, fills, Ids([]), t)
  {
  }

  /** Every total depends on the set of external ids alone. */
  lemma {:induction false} TotalsOfIngested(t: Tables, fills: map<string, Fill>, ids: seq<string>)
    requires Resolves(t, fills) && forall id <- ids :: id in fills
    ensures TotalsAre(t, fills, Ids(ids), IngestAll(t, fills, ids))
  {
    hide Resolves, IngestFill, TotalsAre;
    if ids == [] {
      NothingIngested(t, fills);
    } else {
      var front := ids[..|ids| - 1];
      TotalsOfIngested(t, fills, front);
      TotalsStep(t, fills, Ids(front), ids[|ids| - 1], IngestAll(t, fills, front));
      IdsOfMore(ids);
    }
  }

  // ------------------------------------------------------------- convergence

  /** The same size, filled size, status and revision. */
  ghost predicate SameProgress(x: OrderRow, y: OrderRow) {
    x.size == y.size && x.filled == y.filled && x.status == y.status && x.revision == y.revision
  }

  /** Two rows after the same fills carry the same exchange id: the one they had, or the one all fills bring. */
  lemma {:induction false} SameOid(t: Tables, fills: map<string, Fill>, ids: set<string>, x: OrderRow, y: OrderRow, i: nat)
    requires Resolves(t, fills) && i < |t.orders| && OrderIs(t, fills, ids, x, i) && OrderIs(t, fills, ids, y, i)
    ensures x.oid == y.oid
  {
    hide SetSum, Effective, Home;
    if x.oid != t.orders[i].oid {
      var a :| a in fills && Home(t.orders, fills[a].target) == Some(i) && x.oid == Some(fills[a].target.oid);
      var b :| b in fills && Home(t.orders, fills[b].target) == Some(i) && y.oid == Some(fills[b].target.oid);
      assert Consistent(t.orders, fills[a].target, fills[b].target);
    }
  }

  /** The same exchange ids and progress for every order, the same inbox and the same ledger sums. */
  ghost predicate SameOutcome(x: Tables, y: Tables) {
    && |x.orders| == |y.orders|
    && (forall i | 0 <= i < |x.orders| :: SameProgress(x.orders[i], y.orders[i]) && x.orders[i].oid == y.orders[i].oid)
    && (forall kind :: EntrySum(x.entries, kind) == EntrySum(y.entries, kind))
    && x.inbox == y.inbox
  }

  /**
   Any two deliveries of the same set of fills of known orders, in any order and with any duplicates,
   end with the same filled sizes, statuses, revisions and ledger sums.
   */
  lemma {:induction false} FillsConverge(t: Tables, fills: map<string, Fill>, a: seq<string>, b: seq<string>)
    requires Resolves(t, fills) && (forall id <- a :: id in fills) && (forall id <- b :: id in fills)
    requires Ids(a) == Ids(b)
    ensures SameOutcome(IngestAll(t, fills, a), IngestAll(t, fills, b))
  {
    hide SetSum, EntrySum, IngestAll, Home, Effective;
    TotalsOfIngested(t, fills, a);
    TotalsOfIngested(t, fills, b);
    var x, y := IngestAll(t, fills, a), IngestAll(t, fills, b);
    forall i | 0 <= i < |t.orders|
      ensures SameProgress(x.orders[i], y.orders[i]) && x.orders[i].oid == y.orders[i].oid
    {
      assert OrderIs(t, fills, Ids(a), x.orders[i], i) && OrderIs(t, fills, Ids(b), y.orders[i], i);
      SameOid(t, fills, Ids(a), x.orders[i], y.orders[i], i);
    }
  }

  /** Fills of an own order whose acknowledgement has not arrived: they bring its client id and one exchange id. */
  lemma {:induction false} UnacknowledgedOrderResolves(t: Tables, fills: map<string, Fill>, order: nat, oid: string)
    requires forall i | 0 <= i < |t.orders| :: RowAllowed(t.orders[i])
    requires order < |t.orders| && FindByCloid(t.orders, t.orders[order].cloid) == Some(order)
    requires CanonicalCloid(t.orders[order].cloid) && t.orders[order].oid.None? && FindByOid(t.orders, oid).None?
    requires forall id <- fills ::
      fills[id].externalId == id && fills[id].target.oid == oid && fills[id].target.cloid == t.orders[order].cloid
    ensures Resolves(t, fills) && forall id <- fills :: Home(t.orders, fills[id].target) == Some(order)
  {
    hide FindByCloid, FindByOid;
  }

  // --------------------------------------------------------- unknown orders

  /** Allowed, new fills of one exchange id that no order has, whose projected client ids no order has. */
  ghost predicate Unknown(t: Tables, fills: map<string, Fill>, oid: string) {
    && (forall i | 0 <= i < |t.orders| :: RowAllowed(t.orders[i]))
    && FindByOid(t.orders, oid).None?
    && forall id <- fills ::
         && fills[id].externalId == id && id !in t.inbox && fills[id].target.oid == oid && FillAllowed(fills[id])
         && FindByCloid(t.orders, ProjectedRow(fills[id].target).cloid).None?
  }

  /** The tables with the order projected from a fill. */
  function Projected(t: Tables, f: Fill): Tables { t.(orders := t.orders + [ProjectedRow(f.target)]) }

  lemma {:induction false} FindAppended(orders: seq<OrderRow>, o: OrderRow, oid: string)
    requires FindByOid(orders, oid).None? && o.oid == Some(oid)
    ensures FindByOid(orders + [o], oid) == Some(|orders|)
  {
    assert (orders + [o])[..|orders|] == orders;
  }

  /** The first fill projects the order; from then on it is known. */
  lemma {:induction false} FirstFillProjects(t: Tables, fills: map<string, Fill>, oid: string, id: string)
    requires Unknown(t, fills, oid) && id in fills
    ensures IngestFill(t, fills[id]) == IngestFill(Projected(t, fills[id]), fills[id])
  {
    var f := fills[id];
    FindAppended(t.orders, ProjectedRow(f.target), oid);
    hide FindByOid, FindByCloid, FilledRow, UpsertPosition, ConsumeReservation;
    assert FindOrCreate(t.orders, f.target) == Some((Projected(t, f).orders, |t.orders|));
    assert FindOrCreate(Projected(t, f).orders, f.target) == Some((Projected(t, f).orders, |t.orders|));
  }

  lemma {:induction false} DeliveryFromProjected(t: Tables, fills: map<string, Fill>, oid: string, ids: seq<string>)
    requires Unknown(t, fills, oid) && ids != [] && forall id <- ids :: id in fills
    ensures IngestAll(t, fills, ids) == IngestAll(Projected(t, fills[ids[0]]), fills, ids)
  {
    hide IngestFill, Unknown;
    var front := ids[..|ids| - 1];
    if front == [] {
      FirstFillProjects(t, fills, oid, ids[0]);
    } else {
      assert front[0] == ids[0];
      DeliveryFromProjected(t, fills, oid, front);
    }
  }

  /** With the order projected, all fills of the exchange id are fills of that order. */
  lemma {:induction false} ProjectedResolves(t: Tables, fills: map<string, Fill>, oid: string, id: string)
    requires Unknown(t, fills, oid) && id in fills
    ensures Resolves(Projected(t, fills[id]), fills)
    ensures forall x <- fills :: Home(Projected(t, fills[id]).orders, fills[x].target) == Some(|t.orders|)
  {
    hide FindByOid, FindByCloid;
    FindAppended(t.orders, ProjectedRow(fills[id].target), oid);
  }

  lemma {:induction false} SameSetSum(ids: set<string>, v: string -> int, w: string -> int)
    requires forall id <- ids :: v(id) == w(id)
    ensures SetSum(ids, v) == SetSum(ids, w)
  {
    if ids != {} {
      var x :| x in ids;
      SetSumPick(ids, v, x);
      SetSumPick(ids, w, x);
      SameSetSum(ids - {x}, v, w);
    }
  }

  lemma {:induction false} ZeroSetSum(ids: set<string>, v: string -> int)
    requires forall id <- ids :: v(id) == 0
    ensures SetSum(ids, v) == 0
  {
    if ids != {} {
      var x :| x in ids;
      SetSumPick(ids, v, x);
      ZeroSetSum(ids - {x}, v);
    }
  }

  /** What the projected order and the others look like after a delivery. */
  lemma {:induction false} ProjectedTotals(t: Tables, fills: map<string, Fill>, oid: string, id: string, ids: seq<string>)
    requires Unknown(t, fills, oid) && id in fills && forall x <- ids :: x in fills
    ensures var p, u := Projected(t, fills[id]), IngestAll(Projected(t, fills[id]), fills, ids);
      && TotalsAre(p, fills, Ids(ids), u)
      && u.orders[|t.orders|].size == ProjectedRow(fills[id].target).size
      && u.orders[|t.orders|].oid == Some(oid)
      && forall i | 0 <= i < |t.orders| :: SameProgress(u.orders[i], t.orders[i]) && u.orders[i].oid == t.orders[i].oid
  {
    hide SetSum, EntrySum, IngestAll, Home, Resolves, Unknown;
    ProjectedResolves(t, fills, oid, id);
    var p := Projected(t, fills[id]);
    TotalsOfIngested(p, fills, ids);
    var u := IngestAll(p, fills, ids);
    assert OrderIs(p, fills, Ids(ids), u.orders[|t.orders|], |t.orders|);
    UnknownHasOid(t, fills, oid, id);
    forall i | 0 <= i < |t.orders|
      ensures SameProgress(u.orders[i], t.orders[i]) && u.orders[i].oid == t.orders[i].oid
    {
      assert OrderIs(p, fills, Ids(ids), u.orders[i], i);
      ZeroSetSum(Ids(ids), SizeFor(p, fills, i));
      ZeroSetSum(Ids(ids), CountFor(p, fills, i));
      UnknownKeepsRows(t, fills, oid, i);
    }
  }

  lemma {:induction false} UnknownHasOid(t: Tables, fills: map<string, Fill>, oid: string, id: string)
    requires Unknown(t, fills, oid) && id in fills
    ensures ProjectedRow(fills[id].target).oid == Some(oid) && fills[id].target.oid == oid
  {
  }

  lemma {:induction false} UnknownKeepsRows(t: Tables, fills: map<string, Fill>, oid: string, i: nat)
    requires Unknown(t, fills, oid) && i < |t.orders|
    ensures RowAllowed(t.orders[i])
  {
  }

  lemma {:induction false} ProjectedColumns(x: ExchangeRef)
    ensures var o := ProjectedRow(x); o.filled == ZERO && o.status == Acknowledged && o.revision == 0
  {
  }

  /** Two projections of equal size have the same totals. */
  lemma {:induction false} ProjectionsAgree(
    t: Tables, fills: map<string, Fill>, oid: string, x: string, y: string, a: seq<string>, b: seq<string>)
    requires Unknown(t, fills, oid) && x in fills && y in fills
    requires (forall id <- a :: id in fills) && (forall id <- b :: id in fills) && Ids(a) == Ids(b)
    requires ProjectedRow(fills[x].target).size == ProjectedRow(fills[y].target).size
    ensures SameOutcome(IngestAll(Projected(t, fills[x]), fills, a), IngestAll(Projected(t, fills[y]), fills, b))
  {
    hide SetSum, EntrySum, IngestAll, Home, Resolves, Unknown, OidIs, Effective, RowAllowed, ProjectedRow;
    ProjectedColumns(fills[x].target);
    ProjectedColumns(fills[y].target);
    var n := |t.orders|;
    var p, q := Projected(t, fills[x]), Projected(t, fills[y]);
    var u, v := IngestAll(p, fills, a), IngestAll(q, fills, b);
    ProjectedTotals(t, fills, oid, x, a);
    ProjectedTotals(t, fills, oid, y, b);
    EffectiveEither(t, fills, oid, x, y);
    assert OrderIs(p, fills, Ids(a), u.orders[n], n) && OrderIs(q, fills, Ids(b), v.orders[n], n);
    SameSetSum(Ids(a), SizeFor(p, fills, n), SizeFor(q, fills, n));
    SameSetSum(Ids(a), CountFor(p, fills, n), CountFor(q, fills, n));
    forall kind ensures EntrySum(u.entries, kind) == EntrySum(v.entries, kind) {
      SameSetSum(Ids(a), AmountOf(p, fills, kind), AmountOf(q, fills, kind));
    }
    assert SameProgress(u.orders[n], v.orders[n]);
  }

  /** Which fills take effect, and on which order, does not depend on the fill that projected it. */
  lemma {:induction false} EffectiveEither(t: Tables, fills: map<string, Fill>, oid: string, x: string, y: string)
    requires Unknown(t, fills, oid) && x in fills && y in fills
    ensures forall id <- fills ::
      && Effective(Projected(t, fills[x]), fills, id) && Effective(Projected(t, fills[y]), fills, id)
      && Home(Projected(t, fills[x]).orders, fills[id].target) == Some(|t.orders|)
      && Home(Projected(t, fills[y]).orders, fills[id].target) == Some(|t.orders|)
  {
    ProjectedResolves(t, fills, oid, x);
    ProjectedResolves(t, fills, oid, y);
    hide Home, Resolves;
  }

  ghost predicate Delivers(fills: map<string, Fill>, ids: seq<string>) { Ids(ids) == fills.Keys }

  /** Every two complete deliveries of the fills end the same. */
  ghost predicate Converges(t: Tables, fills: map<string, Fill>) {
    forall a, b | Delivers(fills, a) && Delivers(fills, b) :: AgreeOn(t, fills, a, b)
  }

  ghost predicate AgreeOn(t: Tables, fills: map<string, Fill>, a: seq<string>, b: seq<string>) {
    && (forall id <- a :: id in fills) && (forall id <- b :: id in fills)
    && SameOutcome(IngestAll(t, fills, a), IngestAll(t, fills, b))
  }

  lemma {:induction false} DeliversOnly(fills: map<string, Fill>, ids: seq<string>)
    requires Delivers(fills, ids)
    ensures forall id <- ids :: id in fills
    ensures fills == map[] ==> ids == []
    ensures fills != map[] ==> ids != []
  {
    if ids != [] { assert ids[0] in Ids(ids); }
    forall id <- ids ensures id in fills { assert id in Ids(ids); }
    if fills != map[] {
      var id :| id in fills;
      assert id in Ids(ids);
    }
  }

  /** A delivery of a set of ids that starts with a given one. */
  lemma {:induction false} DeliveryFrom(ids: set<string>, first: string) returns (a: seq<string>)
    requires first in ids
    ensures a != [] && a[0] == first && Ids(a) == ids
  {
    a := [first];
    var rest := ids - {first};
    while rest != {}
      invariant a != [] && a[0] == first && Ids(a) + rest == ids
      decreases |rest|
    {
      var x :| x in rest;
      ghost var before := a;
      a := a + [x];
      IdsOfMore(a);
      assert a[..|a| - 1] == before;
      rest := rest - {x};
    }
  }

  lemma {:induction false} DeliveryOf(ids: set<string>) returns (a: seq<string>)
    ensures Ids(a) == ids
  {
    if ids == {} {
      a := [];
    } else {
      var x :| x in ids;
      a := DeliveryFrom(ids, x);
    }
  }

  lemma {:induction false} IngestMore(t: Tables, fills: map<string, Fill>, ids: seq<string>, x: string)
    requires (forall id <- ids :: id in fills) && x in fills
    ensures IngestAll(t, fills, ids + [x]) == IngestFill(IngestAll(t, fills, ids), fills[x]).0
    ensures Ids(ids + [x]) == Ids(ids) + {x}
  {
    assert (ids + [x])[..|ids|] == ids;
  }

  /**
   An order the ledger does not know takes the size of whichever fill comes first, so its fills converge if
   and only if they all project the same size.
   */
  lemma {:induction false} UnknownOrderConvergesIff(t: Tables, fills: map<string, Fill>, oid: string)
    requires Unknown(t, fills, oid)
    ensures Converges(t, fills) <==> forall x, y | x in fills && y in fills ::
      ProjectedRow(fills[x].target).size == ProjectedRow(fills[y].target).size
  {
    hide IngestAll, ProjectedRow, SameOutcome, Unknown;
    if Converges(t, fills) {
      forall x, y | x in fills && y in fills
        ensures ProjectedRow(fills[x].target).size == ProjectedRow(fills[y].target).size
      {
        ConvergentSizes(t, fills, oid, x, y);
      }
    } else {
      var a, b :| Delivers(fills, a) && Delivers(fills, b) && !AgreeOn(t, fills, a, b);
      DeliversOnly(fills, a);
      DeliversOnly(fills, b);
      if fills == map[] {
        SameAsItself(IngestAll(t, fills, a));
      } else {
        DeliveryFromProjected(t, fills, oid, a);
        DeliveryFromProjected(t, fills, oid, b);
        if ProjectedRow(fills[a[0]].target).size == ProjectedRow(fills[b[0]].target).size {
          ProjectionsAgree(t, fills, oid, a[0], b[0], a, b);
        }
      }
    }
  }

  lemma {:induction false} SameAsItself(t: Tables)
    ensures SameOutcome(t, t)
  {
  }

  lemma {:induction false} ConvergentSizes(t: Tables, fills: map<string, Fill>, oid: string, x: string, y: string)
    requires Unknown(t, fills, oid) && x in fills && y in fills && Converges(t, fills)
    ensures ProjectedRow(fills[x].target).size == ProjectedRow(fills[y].target).size
  {
    hide IngestAll, ProjectedRow, Unknown, TotalsAre, EntrySum;
    var a := DeliveryFrom(fills.Keys, x);
    var b := DeliveryFrom(fills.Keys, y);
    assert AgreeOn(t, fills, a, b);
    DeliveryFromProjected(t, fills, oid, a);
    DeliveryFromProjected(t, fills, oid, b);
    ProjectedTotals(t, fills, oid, x, a);
    ProjectedTotals(t, fills, oid, y, b);
    ProjectedLength(t, fills, oid, x, a);
    assert SameProgress(IngestAll(t, fills, a).orders[|t.orders|], IngestAll(t, fills, b).orders[|t.orders|]);
  }

  lemma {:induction false} ProjectedLength(t: Tables, fills: map<string, Fill>, oid: string, id: string, ids: seq<string>)
    requires Unknown(t, fills, oid) && id in fills && forall x <- ids :: x in fills
    ensures |IngestAll(Projected(t, fills[id]), fills, ids).orders| == |t.orders| + 1
  {
    ProjectedTotals(t, fills, oid, id, ids);
  }

  /** A fill of the unknown order "1" without an original size. */
  function SmallFill(id: string, size: Decimal): Fill {
    Fill(id, ExchangeRef("1", "", "s", "BTC", Buy, Some(size), None), size, Decimal(1), ZERO, ZERO, ZERO)
  }

  /** Two such fills of different sizes: whichever comes first fixes the order's size. */
  lemma {:induction false} UnknownOrdersDoNotConverge()
    ensures !Converges(EMPTY, map["a" := SmallFill("a", Decimal(1)), "b" := SmallFill("b", Decimal(2))])
  {
    var fills := map["a" := SmallFill("a", Decimal(1)), "b" := SmallFill("b", Decimal(2))];
    assert Unknown(EMPTY, fills, "1");
    UnknownOrderConvergesIff(EMPTY, fills, "1");
    assert ProjectedRow(fills["a"].target).size != ProjectedRow(fills["b"].target).size;
  }
}
