/**
 The average price that fill ingestion stores: how far its rounded updates can take it from the exact
 volume-weighted average, in whatever order the fills arrive.
 */
module AveragePrice {
  import opened Arith
  import opened DecimalCore
  import opened Options
  import opened OrderLedger
  import opened ReservationConservation
  import opened FillConvergence

  datatype PricedFill = PricedFill(size: Decimal, price: Decimal)

  ghost predicate Positive(fills: seq<PricedFill>) { forall f <- fills :: f.size.raw > 0 }

  /** The order row after its fills, one after the other. */
  function FilledAll(o: OrderRow, fills: seq<PricedFill>): (r: OrderRow)
    requires o.filled.raw >= 0 && o.size.raw >= 0 && Positive(fills)
    ensures r.filled.raw >= 0 && r.size == o.size
  {
    if fills == [] then o else
    FilledRow(FilledAll(o, fills[..|fills| - 1]), fills[|fills| - 1].size, fills[|fills| - 1].price)
  }

  /** The fill fits the order, and nothing in the update of its average saturates. */
  ghost predicate Unclamped(o: OrderRow, f: PricedFill) {
    var previous := if o.avg.Some? then o.avg.value else f.price;
    && f.size.raw > 0 && 0 <= o.filled.raw && o.filled.raw + f.size.raw <= o.size.raw
    && FitsI128(MulQuotient(o.filled, previous)) && FitsI128(MulQuotient(f.size, f.price))
    && FitsI128(Mul(o.filled, previous).raw + Mul(f.size, f.price).raw)
    && FitsI128(DivQuotient(Add(Mul(o.filled, previous), Mul(f.size, f.price)), Add(o.filled, f.size)))
  }

  ghost predicate AllUnclamped(o: OrderRow, fills: seq<PricedFill>)
    requires o.filled.raw >= 0 && o.size.raw >= 0 && Positive(fills)
  {
    forall k | 0 <= k < |fills| :: Unclamped(FilledAll(o, fills[..k]), fills[k])
  }

  ghost function Total(fills: seq<PricedFill>, of: PricedFill -> int): int {
    if fills == [] then 0 else Total(fills[..|fills| - 1], of) + of(fills[|fills| - 1])
  }

  ghost function SizeOf(): PricedFill -> int { (f: PricedFill) => f.size.raw as int }

  ghost function ValueOf(): PricedFill -> int { (f: PricedFill) => f.size.raw * f.price.raw }

  /** The exact volume and value of the fills, the value in squared raw units. */
  ghost function Volume(fills: seq<PricedFill>): int { Total(fills, SizeOf()) }

  ghost function TotalValue(fills: seq<PricedFill>): int { Total(fills, ValueOf()) }

  /** The stored average times the filled size is within the error of the value. */
  ghost predicate NearValue(o: OrderRow, value: int, error: int) {
    if o.avg.Some? then 2 * Abs(o.avg.value.raw * o.filled.raw - value) <= error
    else o.filled.raw == 0 && value == 0 && error >= 0
  }

  lemma {:induction false} ErrorsAdd(m1: int, p1: int, m2: int, p2: int, q: int, total: int, value: int, error: int)
    requires 2 * Abs(p1 - m1 * SCALE) <= SCALE && 2 * Abs(p2 - m2 * SCALE) <= SCALE
    requires 2 * Abs((m1 + m2) * SCALE - q) <= total && 2 * Abs(p1 - value) <= error
    ensures 2 * Abs(q - (value + p2)) <= error + total + 2 * SCALE
  {
  }

  ghost function Previous(o: OrderRow, f: PricedFill): Decimal { if o.avg.Some? then o.avg.value else f.price }

  ghost function Numerator(o: OrderRow, f: PricedFill): Decimal {
    Add(Mul(o.filled, Previous(o, f)), Mul(f.size, f.price))
  }

  lemma {:induction false} FilledAverage(o: OrderRow, f: PricedFill)
    requires Unclamped(o, f)
    ensures var after := FilledRow(o, f.size, f.price);
      && after.filled.raw == o.filled.raw + f.size.raw > 0 && after.filled == Add(o.filled, f.size)
      && after.avg == Some(Div(Numerator(o, f), Add(o.filled, f.size)))
  {
    hide Mul, Div, MulQuotient, DivQuotient;
  }

  /** The rounding errors of the two products and the quotient. */
  lemma {:induction false} UpdateErrors(o: OrderRow, f: PricedFill)
    requires Unclamped(o, f)
    ensures var m1, m2 := Mul(o.filled, Previous(o, f)).raw, Mul(f.size, f.price).raw;
      && 2 * Abs(o.filled.raw * Previous(o, f).raw - m1 * SCALE) <= SCALE
      && 2 * Abs(f.size.raw * f.price.raw - m2 * SCALE) <= SCALE
      && 2 * Abs((m1 + m2) * SCALE - Div(Numerator(o, f), Add(o.filled, f.size)).raw * Add(o.filled, f.size).raw)
         <= Add(o.filled, f.size).raw
  {
    hide Mul, Div, MulQuotient, DivQuotient;
    MulQuotientError(o.filled, Previous(o, f));
    MulQuotientError(f.size, f.price);
    DivQuotientError(Numerator(o, f), Add(o.filled, f.size));
  }

  /** The value so far, at the previous average. */
  lemma {:induction false} PreviousValue(o: OrderRow, f: PricedFill, value: int, error: int)
    requires NearValue(o, value, error)
    ensures 2 * Abs(o.filled.raw * Previous(o, f).raw - value) <= error
  {
    if o.avg.Some? {
      assert o.avg.value.raw * o.filled.raw == o.filled.raw * Previous(o, f).raw;
    } else {
      assert o.filled.raw * Previous(o, f).raw == 0;
    }
  }

  /** One update of the average adds at most half the filled size and one unit of the scale to the error. */
  lemma {:induction false} AverageStep(o: OrderRow, f: PricedFill, value: int, error: int)
    requires Unclamped(o, f) && NearValue(o, value, error)
    ensures var after := FilledRow(o, f.size, f.price);
      && after.filled.raw == o.filled.raw + f.size.raw && after.avg.Some?
      && NearValue(after, value + f.size.raw * f.price.raw, error + after.filled.raw + 2 * SCALE)
  {
    hide FilledRow, Unclamped, Mul, Div, Numerator, Previous, Add;
    FilledAverage(o, f);
    UpdateErrors(o, f);
    PreviousValue(o, f, value, error);
    var total := Add(o.filled, f.size);
    ErrorsAdd(Mul(o.filled, Previous(o, f)).raw, o.filled.raw * Previous(o, f).raw, Mul(f.size, f.price).raw,
              f.size.raw * f.price.raw, Div(Numerator(o, f), total).raw * total.raw, total.raw, value, error);
  }

  lemma {:induction false} TotalsOfFront(fills: seq<PricedFill>)
    requires fills != []
    ensures var front, f := fills[..|fills| - 1], fills[|fills| - 1];
      Volume(fills) == Volume(front) + f.size.raw && TotalValue(fills) == TotalValue(front) + f.size.raw * f.price.raw
  {
  }

  /**
   The stored average of an order is the volume-weighted average of its fills up to rounding: over n fills
   filled * average differs from the exact value by at most n * (filled / 2 + 10^18) squared raw units.
   */
  lemma {:induction false} StoredAverageIsNearVolumeWeighted(o: OrderRow, fills: seq<PricedFill>)
    requires o.filled.raw == 0 && o.avg.None? && o.size.raw >= 0 && Positive(fills) && AllUnclamped(o, fills)
    ensures var after := FilledAll(o, fills);
      && after.filled.raw == Volume(fills)
      && (fills != [] ==> after.avg.Some?)
      && NearValue(after, TotalValue(fills), |fills| * (Volume(fills) + 2 * SCALE))
  {
    hide FilledRow, Unclamped, Total, NearValue, FilledAll, AllUnclamped;
    if fills == [] {
      NothingFilled(o);
    } else {
      var n := |fills| - 1;
      var front, f := fills[..n], fills[n];
      FrontUnclamped(o, fills);
      StoredAverageIsNearVolumeWeighted(o, front);
      TotalsOfFront(fills);
      AverageStep(FilledAll(o, front), f, TotalValue(front), n * (Volume(front) + 2 * SCALE));
      ErrorGrows(FilledAll(o, fills), TotalValue(fills), n, Volume(front), Volume(fills));
    }
  }

  lemma {:induction false} FrontUnclamped(o: OrderRow, fills: seq<PricedFill>)
    requires o.filled.raw >= 0 && o.size.raw >= 0 && Positive(fills) && fills != [] && AllUnclamped(o, fills)
    ensures var n := |fills| - 1;
      && fills[n].size.raw > 0 && Positive(fills[..n])
      && AllUnclamped(o, fills[..n]) && Unclamped(FilledAll(o, fills[..n]), fills[n])
      && FilledAll(o, fills) == FilledRow(FilledAll(o, fills[..n]), fills[n].size, fills[n].price)
  {
    hide FilledRow, Unclamped;
    var n := |fills| - 1;
    var front := fills[..n];
    forall k | 0 <= k < n ensures Unclamped(FilledAll(o, front[..k]), front[k]) {
      assert front[..k] == fills[..k] && Unclamped(FilledAll(o, fills[..k]), fills[k]);
    }
    assert Unclamped(FilledAll(o, fills[..n]), fills[n]);
  }

  lemma {:induction false} NothingFilled(o: OrderRow)
    requires o.filled.raw == 0 && o.avg.None? && o.size.raw >= 0
    ensures Volume([]) == 0 && TotalValue([]) == 0 && NearValue(o, 0, 0) && FilledAll(o, []) == o
  {
  }

  lemma {:induction false} ErrorGrows(o: OrderRow, value: int, n: nat, before: int, volume: int)
    requires before <= volume && o.avg.Some? && NearValue(o, value, n * (before + 2 * SCALE) + volume + 2 * SCALE)
    ensures NearValue(o, value, (n + 1) * (volume + 2 * SCALE))
  {
    MulLe(before + 2 * SCALE, volume + 2 * SCALE, n);
    assert n * (before + 2 * SCALE) == (before + 2 * SCALE) * n;
    assert (n + 1) * (volume + 2 * SCALE) == (volume + 2 * SCALE) * n + volume + 2 * SCALE;
  }

  lemma {:induction false} TotalWithout(fills: seq<PricedFill>, k: nat, of: PricedFill -> int)
    requires k < |fills|
    ensures Total(fills, of) == Total(fills[..k] + fills[k + 1..], of) + of(fills[k])
  {
    var n := |fills| - 1;
    if k == n {
      assert fills[..k] + fills[k + 1..] == fills[..n];
    } else {
      TotalWithout(fills[..n], k, of);
      var rest := fills[..k] + fills[k + 1..];
      assert rest[..|rest| - 1] == fills[..n][..k] + fills[..n][k + 1..];
    }
  }

  lemma {:induction false} MultisetWithout<T>(s: seq<T>, k: nat)
    requires k < |s|
    ensures multiset(s[..k] + s[k + 1..]) == multiset(s) - multiset{s[k]}
  {
    assert s == s[..k] + [s[k]] + s[k + 1..];
  }

  lemma {:induction false} TotalOfPermutation(a: seq<PricedFill>, b: seq<PricedFill>, of: PricedFill -> int)
    requires multiset(a) == multiset(b)
    ensures Total(a, of) == Total(b, of)
    decreases |a|
  {
    assert |a| == |multiset(a)| == |multiset(b)| == |b|;
    if a != [] {
      var n := |a| - 1;
      assert a[n] in multiset(a);
      assert a[n] in b;
      var k :| 0 <= k < |b| && b[k] == a[n];
      MultisetWithout(a, n);
      MultisetWithout(b, k);
      TotalOfPermutation(a[..n] + a[n + 1..], b[..k] + b[k + 1..], of);
      hide Total;
      TotalWithout(a, n, of);
      TotalWithout(b, k, of);
    }
  }

  /** In whatever order the fills arrive, the stored averages differ by at most n * (1 + 2 * 10^18 / filled) raw units. */
  lemma {:induction false} StoredAveragesAreClose(o: OrderRow, a: seq<PricedFill>, b: seq<PricedFill>)
    requires o.filled.raw == 0 && o.avg.None? && o.size.raw >= 0 && multiset(a) == multiset(b) && a != []
    requires Positive(a) && Positive(b) && AllUnclamped(o, a) && AllUnclamped(o, b)
    ensures var x, y := FilledAll(o, a), FilledAll(o, b);
      && x.filled == y.filled && x.avg.Some? && y.avg.Some?
      && Abs(x.avg.value.raw - y.avg.value.raw) * x.filled.raw <= |a| * (x.filled.raw + 2 * SCALE)
  {
    hide FilledAll, Total, AllUnclamped;
    assert |a| == |multiset(a)| == |multiset(b)| == |b|;
    StoredAverageIsNearVolumeWeighted(o, a);
    StoredAverageIsNearVolumeWeighted(o, b);
    TotalOfPermutation(a, b, SizeOf());
    TotalOfPermutation(a, b, ValueOf());
    var x, y := FilledAll(o, a), FilledAll(o, b);
    CloseTo(x.avg.value.raw, y.avg.value.raw, x.filled.raw, TotalValue(a), |a| * (Volume(a) + 2 * SCALE));
  }

  lemma {:induction false} CloseTo(x: int, y: int, filled: int, value: int, error: int)
    requires filled >= 0 && 2 * Abs(x * filled - value) <= error && 2 * Abs(y * filled - value) <= error
    ensures Abs(x - y) * filled <= error
  {
    assert (x - y) * filled == x * filled - y * filled;
    assert (y - x) * filled == y * filled - x * filled;
  }

  // ------------------------------------------------- the column after ingestion

  /** The fills of an order that took effect in a delivery, in the order they arrived. */
  ghost function Arrived(t: Tables, fills: map<string, Fill>, ids: seq<string>, order: nat): (r: seq<PricedFill>)
    requires forall id <- ids :: id in fills
    ensures Positive(r)
  {
    if ids == [] then [] else
    var front, x := ids[..|ids| - 1], ids[|ids| - 1];
    Arrived(t, fills, front, order) +
      (if x !in Ids(front) && Effective(t, fills, x) && TargetOf(t, fills[x]) == order
       then [PricedFill(fills[x].size, fills[x].price)] else [])
  }

  ghost function ValueFor(t: Tables, fills: map<string, Fill>, order: nat): string -> int {
    id => if Effective(t, fills, id) && TargetOf(t, fills[id]) == order then fills[id].size.raw * fills[id].price.raw else 0
  }

  /** Volume, value and number of the arrived fills are totals over the set of external ids. */
  lemma {:induction false} ArrivedTotals(t: Tables, fills: map<string, Fill>, ids: seq<string>, order: nat)
    requires forall id <- ids :: id in fills
    ensures var arrived := Arrived(t, fills, ids, order);
      && Volume(arrived) == SetSum(Ids(ids), SizeFor(t, fills, order))
      && TotalValue(arrived) == SetSum(Ids(ids), ValueFor(t, fills, order))
      && |arrived| == SetSum(Ids(ids), CountFor(t, fills, order))
  {
    hide SetSum, Effective, Home, Total;
    if ids == [] {
      NoTotals(SizeFor(t, fills, order));
      NoTotals(ValueFor(t, fills, order));
      NoTotals(CountFor(t, fills, order));
      assert Ids(ids) == {};
    } else {
      var front, x := ids[..|ids| - 1], ids[|ids| - 1];
      ArrivedTotals(t, fills, front, order);
      IdsOfMore(ids);
      SetSumAdd(Ids(front), SizeFor(t, fills, order), x);
      SetSumAdd(Ids(front), ValueFor(t, fills, order), x);
      SetSumAdd(Ids(front), CountFor(t, fills, order), x);
      var before, arrived := Arrived(t, fills, front, order), Arrived(t, fills, ids, order);
      if arrived != before { assert arrived[..|before|] == before; TotalsOfFront(arrived); }
    }
  }

  lemma {:induction false} NoTotals(v: string -> int)
    ensures SetSum({}, v) == 0 && Volume([]) == 0 && TotalValue([]) == 0
  {
  }

  /** The two columns that the update of the average reads and writes. */
  ghost predicate SameAverage(a: OrderRow, b: OrderRow) { a.size == b.size && a.filled == b.filled && a.avg == b.avg }

  lemma {:induction false} SameUpdate(a: OrderRow, b: OrderRow, size: Decimal, price: Decimal)
    requires SameAverage(a, b) && a.filled.raw >= 0 && size.raw > 0
    ensures SameAverage(FilledRow(a, size, price), FilledRow(b, size, price))
  {
    hide Mul, Div;
  }

  /** An effective fill updates its order's average as the fold does. */
  lemma {:induction false} FillAverages(u: Tables, f: Fill)
    requires Home(u.orders, f.target).Some? && RowAllowed(u.orders[TargetOf(u, f)])
    requires f.externalId !in u.inbox && FillAllowed(f)
    requires !(u.orders[TargetOf(u, f)].reduceOnly && SpotCoin(f.target.coin))
    ensures var i, after := TargetOf(u, f), IngestFill(u, f).0;
      i < |after.orders| && SameAverage(after.orders[i], FilledRow(u.orders[i], f.size, f.price))
  {
    hide Mul, Div, UpsertPosition, ConsumeReservation, FindOrCreate, Home, FilledRow;
    HomeIsFound(u.orders, f.target);
    IngestKnown(u, f);
    var (found, i) := FindOrCreate(u.orders, f.target).value;
    SameUpdate(u.orders[i], found[i].(isSpot := found[i].isSpot || SpotCoin(f.target.coin)), f.size, f.price);
  }

  /** The stored columns after any delivery are those of the fold over the arrived fills. */
  lemma {:induction false} IngestedIsFilledAll(t: Tables, fills: map<string, Fill>, ids: seq<string>, order: nat)
    requires Resolves(t, fills) && (forall id <- ids :: id in fills) && order < |t.orders|
    ensures t.orders[order].filled.raw >= 0 && t.orders[order].size.raw >= 0
    ensures var u := IngestAll(t, fills, ids);
      && TotalsAre(t, fills, Ids(ids), u) && order < |u.orders|
      && SameAverage(u.orders[order], FilledAll(t.orders[order], Arrived(t, fills, ids, order)))
  {
    hide Resolves, IngestFill, TotalsAre, Effective, Home, FilledRow, TookEffect;
    RowIsAllowed(t, fills, order);
    TotalsOfIngested(t, fills, ids);
    SizeStays(t, fills, Ids(ids), IngestAll(t, fills, ids), order);
    if ids != [] {
      var front, x := ids[..|ids| - 1], ids[|ids| - 1];
      var u := IngestAll(t, fills, front);
      IngestedIsFilledAll(t, fills, front, order);
      HomeIsSome(t, fills, x);
      EffectiveNow(t, fills, Ids(front), x, u);
      IngestKnown(u, fills[x]);
      var before, arrived := Arrived(t, fills, front, order), Arrived(t, fills, ids, order);
      if x !in Ids(front) && Effective(t, fills, x) {
        if TargetOf(t, fills[x]) == order {
          FillAverages(u, fills[x]);
          SameUpdate(u.orders[order], FilledAll(t.orders[order], before), fills[x].size, fills[x].price);
          assert arrived[..|arrived| - 1] == before;
        } else {
          OthersStay(u, fills[x], TargetOf(t, fills[x]), IngestFill(u, fills[x]).0, order);
          assert arrived == before;
        }
      } else {
        assert arrived == before;
      }
    }
  }

  lemma {:induction false} OthersStay(u: Tables, f: Fill, i: nat, after: Tables, order: nat)
    requires TookEffect(u, f, i, after) && order < |u.orders| && order != i
    ensures order < |after.orders| && after.orders[order] == u.orders[order]
  {
  }

  lemma {:induction false} RowIsAllowed(t: Tables, fills: map<string, Fill>, order: nat)
    requires Resolves(t, fills) && order < |t.orders|
    ensures t.orders[order].filled.raw >= 0 && t.orders[order].size.raw >= 0
  {
  }

  lemma {:induction false} SizeStays(t: Tables, fills: map<string, Fill>, ids: set<string>, u: Tables, order: nat)
    requires TotalsAre(t, fills, ids, u) && order < |t.orders|
    ensures order < |u.orders| && u.orders[order].size == t.orders[order].size && u.orders[order].filled.raw >= 0
  {
    assert OrderIs(t, fills, ids, u.orders[order], order);
  }

  /** No fill overfills the order or saturates the update of its average when it arrives. */
  ghost predicate ArrivesUnclamped(t: Tables, fills: map<string, Fill>, ids: seq<string>, order: nat)
    requires (forall id <- ids :: id in fills) && order < |t.orders|
    requires t.orders[order].filled.raw >= 0 && t.orders[order].size.raw >= 0
  {
    AllUnclamped(t.orders[order], Arrived(t, fills, ids, order))
  }

  /** The average column after any delivery is the volume-weighted average of the set of fills, up to rounding. */
  lemma {:induction false} IngestedAverageIsNear(t: Tables, fills: map<string, Fill>, ids: seq<string>, order: nat)
    requires Resolves(t, fills) && (forall id <- ids :: id in fills) && order < |t.orders|
    requires t.orders[order].filled.raw == 0 && t.orders[order].avg.None? && t.orders[order].size.raw >= 0
    requires ArrivesUnclamped(t, fills, ids, order)
    ensures var u := IngestAll(t, fills, ids);
      var volume := SetSum(Ids(ids), SizeFor(t, fills, order));
      && order < |u.orders| && u.orders[order].filled.raw == volume >= 0
      && NearValue(u.orders[order], SetSum(Ids(ids), ValueFor(t, fills, order)),
                   SetSum(Ids(ids), CountFor(t, fills, order)) * (volume + 2 * SCALE))
      && (SetSum(Ids(ids), CountFor(t, fills, order)) > 0 ==> u.orders[order].avg.Some?)
  {
    hide Resolves, IngestAll, SetSum, FilledAll, Total, Arrived, AllUnclamped, TotalsAre;
    IngestedIsFilledAll(t, fills, ids, order);
    SizeStays(t, fills, Ids(ids), IngestAll(t, fills, ids), order);
    ArrivedTotals(t, fills, ids, order);
    StoredAverageIsNearVolumeWeighted(t.orders[order], Arrived(t, fills, ids, order));
  }

  /**
   Whatever the order in which the same fills are ingested, the average columns differ by at most
   n * (1 + 2 * 10^18 / filled) raw units.
   */
  lemma {:induction false} IngestedAveragesAreClose(
    t: Tables, fills: map<string, Fill>, a: seq<string>, b: seq<string>, order: nat)
    requires Resolves(t, fills) && (forall id <- a :: id in fills) && (forall id <- b :: id in fills)
    requires Ids(a) == Ids(b) && order < |t.orders| && SetSum(Ids(a), CountFor(t, fills, order)) > 0
    requires t.orders[order].filled.raw == 0 && t.orders[order].avg.None? && t.orders[order].size.raw >= 0
    requires ArrivesUnclamped(t, fills, a, order) && ArrivesUnclamped(t, fills, b, order)
    ensures var x, y := IngestAll(t, fills, a), IngestAll(t, fills, b);
      && order < |x.orders| && order < |y.orders|
      && var p, q := x.orders[order], y.orders[order];
         && p.filled == q.filled && p.avg.Some? && q.avg.Some?
         && Abs(p.avg.value.raw - q.avg.value.raw) * p.filled.raw
            <= SetSum(Ids(a), CountFor(t, fills, order)) * (p.filled.raw + 2 * SCALE)
  {
    hide Resolves, IngestAll, SetSum, ArrivesUnclamped;
    IngestedAverageIsNear(t, fills, a, order);
    IngestedAverageIsNear(t, fills, b, order);
    var p, q := IngestAll(t, fills, a).orders[order], IngestAll(t, fills, b).orders[order];
    CloseTo(p.avg.value.raw, q.avg.value.raw, p.filled.raw, SetSum(Ids(a), ValueFor(t, fills, order)),
            SetSum(Ids(a), CountFor(t, fills, order)) * (p.filled.raw + 2 * SCALE));
  }
}
