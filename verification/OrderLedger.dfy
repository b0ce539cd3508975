/**
 The durable order tables of one account scope, and every transaction on them as one atomic step.
 Orders are numbered by insertion and never deleted. A violated table constraint aborts the whole
 transaction, which then leaves the tables as they were.
 */
module OrderLedger {
  import opened DecimalCore
  import opened Options
  import opened RiskAdmission
  import CommandQueue

  datatype OrderStatus =
    | Pending | Submitted | SubmitUnknown | Acknowledged | PartialFill | CancelUnknown
    | Filled | Cancelled | Rejected | Expired

  datatype OrderRow = OrderRow(
    cloid: string, oid: Option<string>, symbol: string, side: Side, size: Decimal, price: Option<Decimal>,
    status: OrderStatus, strategy: Option<string>, reduceOnly: bool, isSpot: bool, riskReducing: bool,
    filled: Decimal, avg: Option<Decimal>, error: Option<string>, revision: nat)

  datatype ReservationStatus = Active | Consumed | Released | Lapsed

  /** A placement writes at most one reservation for its order. */
  datatype Reservation = Reservation(
    order: nat, symbol: string, side: Side, reduceOnly: bool,
    size: Decimal, notional: Decimal, status: ReservationStatus, expiresAt: int)

  /** A row of the order event table or of the order rows of the outbox. */
  datatype LogRow = LogRow(order: nat, revision: nat, event: string)

  datatype FillRow = FillRow(externalId: string, order: nat, size: Decimal, price: Decimal)

  datatype EntryKind = RealizedPnl | Fee

  datatype EntryRow = EntryRow(externalId: string, kind: EntryKind, amount: Decimal)

  datatype Tables = Tables(
    account: Option<Account>,
    orders: seq<OrderRow>,
    reservations: seq<Reservation>,
    positions: seq<PositionRow>,
    commands: seq<CommandQueue.CommandRow>,
    events: seq<LogRow>,
    outbox: seq<LogRow>,
    fills: seq<FillRow>,
    entries: seq<EntryRow>,
    inbox: set<string>)

  datatype Config = Config(limits: Option<Limits>, ttl: int)

  datatype Outcome = Done | Duplicate | DuplicateRejected | Aborted

  predicate Terminal(s: OrderStatus) { s in {Filled, Cancelled, Rejected, Expired} }

  /** The CHECK constraints of the order table that these transactions can violate. */
  predicate RowAllowed(o: OrderRow) {
    && o.size.raw > 0
    && 0 <= o.filled.raw <= o.size.raw
    && (o.price.Some? ==> o.price.value.raw > 0)
    && !(o.isSpot && o.reduceOnly)
  }

  // -------------------------------------------------------------- lookups

  function FindByCloid(orders: seq<OrderRow>, cloid: string): (r: Option<nat>)
    ensures r.Some? ==> r.value < |orders| && orders[r.value].cloid == cloid
    ensures r.None? ==> forall i | 0 <= i < |orders| :: orders[i].cloid != cloid
  {
    if orders == [] then None
    else
      var n := |orders| - 1;
      var front := FindByCloid(orders[..n], cloid);
      if front.Some? then front else if orders[n].cloid == cloid then Some(n) else None
  }

  /** Exchange ids are not unique in the schema; the query's first row is the earliest inserted. */
  function FindByOid(orders: seq<OrderRow>, oid: string): (r: Option<nat>)
    ensures r.Some? ==> r.value < |orders| && orders[r.value].oid == Some(oid)
    ensures r.None? ==> forall i | 0 <= i < |orders| :: orders[i].oid != Some(oid)
  {
    if orders == [] then None
    else
      var n := |orders| - 1;
      var front := FindByOid(orders[..n], oid);
      if front.Some? then front else if orders[n].oid == Some(oid) then Some(n) else None
  }

  function FindReservation(rows: seq<Reservation>, order: nat): (r: Option<nat>)
    ensures r.Some? ==> r.value < |rows| && rows[r.value].order == order
    ensures r.None? ==> forall i | 0 <= i < |rows| :: rows[i].order != order
  {
    if rows == [] then None
    else if rows[|rows| - 1].order == order then Some(|rows| - 1)
    else FindReservation(rows[..|rows| - 1], order)
  }

  function FindPositionIndex(rows: seq<PositionRow>, symbol: string): (r: Option<nat>)
    ensures r.Some? ==> r.value < |rows| && rows[r.value].symbol == symbol
    ensures r.None? ==> forall i | 0 <= i < |rows| :: rows[i].symbol != symbol
  {
    if rows == [] then None
    else if rows[0].symbol == symbol then Some(0)
    else match FindPositionIndex(rows[1..], symbol)
      case None => None
      case Some(i) => Some(i + 1)
  }

  // ------------------------------------------------------- reservation rows

  function ActiveRows(rows: seq<Reservation>): seq<ReservationRow> {
    if rows == [] then [] else
    var r := rows[|rows| - 1];
    var front := ActiveRows(rows[..|rows| - 1]);
    if r.status == Active then front + [ReservationRow(r.symbol, r.side, r.reduceOnly, r.size, r.notional)] else front
  }

  /** Reservations past their expiry lapse once their order has ended. */
  function Lapse(r: Reservation, orders: seq<OrderRow>, now: int): Reservation {
    if r.status == Active && r.expiresAt <= now && r.order < |orders| && Terminal(orders[r.order].status)
    then r.(status := Lapsed) else r
  }

  function LapseAll(rows: seq<Reservation>, orders: seq<OrderRow>, now: int): (r: seq<Reservation>)
    ensures |r| == |rows| && forall i | 0 <= i < |rows| :: r[i] == Lapse(rows[i], orders, now)
  {
    seq(|rows|, i requires 0 <= i < |rows| => Lapse(rows[i], orders, now))
  }

  /** The status an active reservation takes when its order is in status s. */
  function ClosedBy(s: OrderStatus): Option<ReservationStatus> {
    match s
    case Filled => Some(Consumed)
    case Rejected => Some(Released)
    case Cancelled => Some(Released)
    case Expired => Some(Released)
    case _ => None
  }

  function CloseReservation(rows: seq<Reservation>, order: nat, s: OrderStatus): seq<Reservation> {
    var i := FindReservation(rows, order);
    if i.Some? && rows[i.value].status == Active && ClosedBy(s).Some? then
      rows[i.value := rows[i.value].(status := ClosedBy(s).value)]
    else rows
  }

  // ------------------------------------------------------------- recording

  /** Write the order row under its next revision, and append that revision to both logs. */
  function Record(t: Tables, order: nat, row: OrderRow, event: string, outboxEvent: string): Tables
    requires order < |t.orders|
  {
    var revision := t.orders[order].revision + 1;
    t.(orders := t.orders[order := row.(revision := revision)],
       events := t.events + [LogRow(order, revision, event)],
       outbox := t.outbox + [LogRow(order, revision, outboxEvent)])
  }

  /** Insert an order row at revision 1 with its first log rows. */
  function RecordNew(t: Tables, row: OrderRow, event: string, outboxEvent: string): Tables {
    t.(orders := t.orders + [row.(revision := 1)],
       events := t.events + [LogRow(|t.orders|, 1, event)],
       outbox := t.outbox + [LogRow(|t.orders|, 1, outboxEvent)])
  }

  // ------------------------------------------------------------- placement

  datatype Placement = Placement(
    order: OrderRow, riskPassed: bool, dispatch: bool, command: nat, supplied: Option<Decimal>, now: int)

  function Request(o: OrderRow): OrderRequest {
    OrderRequest(o.symbol, o.side, o.size, o.price, o.reduceOnly, o.isSpot)
  }

  function Checked(cfg: Config, p: Placement): bool { p.dispatch && p.riskPassed && cfg.limits.Some? }

  /** The reservations the check sees: lapsed ones are swept once the account row is known to be fresh. */
  function SweptReservations(t: Tables, cfg: Config, p: Placement): seq<Reservation> {
    if Checked(cfg, p) && t.account.Some? && !t.account.value.stale
    then LapseAll(t.reservations, t.orders, p.now) else t.reservations
  }

  function EffectiveRisk(t: Tables, cfg: Config, p: Placement): Option<Verdict> {
    if Checked(cfg, p) then
      Some(CheckRiskScope(t.account, t.positions, ActiveRows(SweptReservations(t, cfg, p)),
                          Request(p.order), p.supplied, cfg.limits.value))
    else None
  }

  /** Whether the order goes out: a failed check withdraws the requested dispatch. */
  function Dispatches(t: Tables, cfg: Config, p: Placement): bool {
    p.dispatch && !(EffectiveRisk(t, cfg, p).Some? && EffectiveRisk(t, cfg, p).value.Failed?)
  }

  function ReasonText(r: Reason): string {
    match r
    case AccountStateNotAvailable => "account_state_not_available"
    case AccountStateStale => "account_state_stale"
    case MarketPriceNotAvailable => "market_price_not_available"
    case InvalidReduceOnlyOrder => "invalid_reduce_only_order"
    case NonPositiveEquity => "non_positive_equity"
    case PositionLimitExceeded => "position_limit_exceeded_with_reservations"
    case LeverageExceeded => "leverage_exceeded_with_reservations"
  }

  /** The inserted row: a placement stores neither an exchange id nor an average price. */
  function PlacedRow(t: Tables, cfg: Config, p: Placement): OrderRow {
    var row := p.order.(oid := None, avg := None);
    if p.dispatch && !Dispatches(t, cfg, p)
    then row.(status := Rejected, error := Some(ReasonText(EffectiveRisk(t, cfg, p).value.reason)))
    else row
  }

  function NewReservation(t: Tables, cfg: Config, p: Placement): Reservation {
    var price := ReferencePrice(Request(p.order), t.positions, p.supplied);
    Reservation(|t.orders|, p.order.symbol, p.order.side, p.order.reduceOnly || p.order.riskReducing,
                p.order.size, Mul(p.order.size, price), Active, p.now + cfg.ttl)
  }

  function PlaceCommand(t: Tables, cfg: Config, p: Placement): CommandQueue.CommandRow {
    var actor := if p.order.strategy.Some? then p.order.strategy.value else "execution_engine";
    CommandQueue.NewCommand(p.command, CommandQueue.PlaceOrder, actor, p.order.cloid,
      if Dispatches(t, cfg, p) then CommandQueue.Pending else CommandQueue.Failed, p.now)
  }

  function PersistPlacement(t: Tables, cfg: Config, p: Placement): (Tables, Outcome) {
    var existing := FindByCloid(t.orders, p.order.cloid);
    if existing.Some? then
      (t, if t.orders[existing.value].status == Rejected then DuplicateRejected else Duplicate)
    else
      var row := PlacedRow(t, cfg, p);
      var goes := Dispatches(t, cfg, p);
      var commands := CommandQueue.InsertCommand(t.commands, PlaceCommand(t, cfg, p));
      var reservation := NewReservation(t, cfg, p);
      if !RowAllowed(row) || commands.None? || (goes && reservation.notional.raw < 0) then (t, Aborted)
      else
        var swept := SweptReservations(t, cfg, p);
        var reserved := if goes then swept + [reservation] else swept;
        var event := if goes then "submitted" else "rejected";
        (RecordNew(t.(reservations := reserved, commands := commands.value), row, event, "order." + event), Done)
  }

  // ------------------------------------------------------------ transition

  datatype Transition = Transition(
    cloid: string, oid: Option<string>, status: OrderStatus, filled: Decimal, avg: Option<Decimal>,
    error: Option<string>, event: string, command: Option<(nat, CommandQueue.CommandStatus)>)

  predicate BelowPartialFill(s: OrderStatus) { s in {Pending, Submitted, SubmitUnknown, Acknowledged} }

  /** Terminal statuses stay, a partial fill is not taken back, and fills never regress. */
  function MergeTransport(o: OrderRow, x: Transition): Option<OrderRow> {
    if x.oid.Some? && o.oid.Some? && o.oid != x.oid then None else
    var keep := Terminal(o.status) || (o.status == PartialFill && BelowPartialFill(x.status));
    Some(o.(oid := if x.oid.Some? then x.oid else o.oid,
            status := if keep then o.status else x.status,
            error := x.error,
            filled := if x.filled.raw > o.filled.raw then x.filled else o.filled,
            avg := if x.avg.Some? then x.avg else o.avg))
  }

  function PersistTransition(t: Tables, x: Transition): (Tables, Outcome) {
    match FindByCloid(t.orders, x.cloid)
    case None => (t, Aborted)
    case Some(i) =>
      match MergeTransport(t.orders[i], x)
      case None => (t, Aborted)
      case Some(merged) =>
        if !RowAllowed(merged) then (t, Aborted) else
        var commands := match x.command
          case None => t.commands
          case Some((id, status)) => CommandQueue.Settle(t.commands, id, status);
        (Record(t.(commands := commands, reservations := CloseReservation(t.reservations, i, merged.status)),
                i, merged, x.event, "order." + x.event), Done)
  }

  // -------------------------------------------------------- cancel request

  function CancelCommand(cloid: string, command: nat, now: int): CommandQueue.CommandRow {
    CommandQueue.NewCommand(
      command, CommandQueue.CancelOrder, "execution_engine", "cancel:" + cloid, CommandQueue.Pending, now)
  }

  function PersistCancelRequested(t: Tables, cloid: string, command: nat, now: int): (Tables, Outcome) {
    match FindByCloid(t.orders, cloid)
    case None => (t, Aborted)
    case Some(i) =>
      match CommandQueue.InsertOnce(t.commands, CancelCommand(cloid, command, now))
      case None => (t, Aborted)
      case Some(commands) =>
        (Record(t.(commands := commands), i, t.orders[i], "cancel_requested", "order.cancel_requested"), Done)
  }

  // ----------------------------------------------------- reconciled import

  function MergeReconciled(o: OrderRow, x: OrderRow): OrderRow {
    o.(oid := if x.oid.Some? then x.oid else o.oid,
       status := x.status,
       filled := if x.filled.raw > o.filled.raw then x.filled else o.filled,
       avg := if x.avg.Some? then x.avg else o.avg,
       error := if x.error.Some? then x.error else o.error)
  }

  /** An import of an unknown order inserts it without its average price. */
  function PersistReconciled(t: Tables, x: OrderRow): (Tables, Outcome) {
    match FindByCloid(t.orders, x.cloid)
    case None =>
      if !RowAllowed(x) then (t, Aborted) else
      (RecordNew(t.(reservations := CloseReservation(t.reservations, |t.orders|, x.status)), x.(avg := None),
                 "reconciled_import", "order.reconciled_import"), Done)
    case Some(i) =>
      var merged := MergeReconciled(t.orders[i], x);
      if !RowAllowed(merged) then (t, Aborted) else
      (Record(t.(reservations := CloseReservation(t.reservations, i, merged.status)), i, merged,
              "reconciled_import", "order.reconciled_import"), Done)
  }

  // ------------------------------------------------- exchange fact ingestion

  /** The order an exchange fact refers to, as its payload describes it. */
  datatype ExchangeRef = ExchangeRef(
    oid: string, cloid: string, synthetic: string, coin: string, side: Side,
    size: Option<Decimal>, price: Option<Decimal>)

  predicate CanonicalCloid(cloid: string) { |cloid| == 34 && cloid[..2] == "0x" }

  predicate SpotCoin(coin: string) { coin != "" && coin[0] == '@' }

  const EPSILON: Decimal := Decimal(1)

  function ProjectedRow(x: ExchangeRef): OrderRow {
    OrderRow(
      if CanonicalCloid(x.cloid) then x.cloid else x.synthetic, Some(x.oid),
      if x.coin == "" then "UNKNOWN" else x.coin, x.side,
      if x.size.Some? && x.size.value.raw > 0 then x.size.value else EPSILON,
      if x.price.Some? && x.price.value.raw > 0 then x.price else None,
      Acknowledged, None, false, SpotCoin(x.coin), false, ZERO, None, None, 0)
  }

  /** Find the order by exchange id, else by client id (adopting the exchange id), else project a new one. */
  function FindOrCreate(orders: seq<OrderRow>, x: ExchangeRef): (r: Option<(seq<OrderRow>, nat)>)
    ensures r.Some? ==> r.value.1 < |r.value.0| && |orders| <= |r.value.0|
  {
    var byOid := FindByOid(orders, x.oid);
    if byOid.Some? then Some((orders, byOid.value)) else
    var byCloid := if CanonicalCloid(x.cloid) then FindByCloid(orders, x.cloid) else None;
    if byCloid.Some? then
      var i := byCloid.value;
      var adopted := orders[i].(oid := Some(x.oid), isSpot := SpotCoin(x.coin));
      if orders[i].oid.Some? || !RowAllowed(adopted) then None
      else Some((orders[i := adopted], i))
    else
      var row := ProjectedRow(x);
      if FindByCloid(orders, row.cloid).Some? then None else Some((orders + [row], |orders|))
  }

  datatype Fill = Fill(
    externalId: string, target: ExchangeRef, size: Decimal, price: Decimal, fee: Decimal, pnl: Decimal, start: Decimal)

  /** The order row after a fill: size capped at the order, average weighted by size, status by progress. */
  function FilledRow(o: OrderRow, size: Decimal, price: Decimal): OrderRow
    requires o.filled.raw >= 0 && size.raw > 0
  {
    var total := Add(o.filled, size);
    var filled := MinD(o.size, total);
    var previous := if o.avg.Some? then o.avg.value else price;
    var numerator := Add(Mul(o.filled, previous), Mul(size, price));
    o.(filled := filled,
       avg := if filled.raw > 0 then Some(Div(numerator, total)) else o.avg,
       status := if filled.raw >= o.size.raw then Filled
                 else if o.status in {Cancelled, Rejected, Expired} then o.status
                 else PartialFill)
  }

  function ConsumedReservation(r: Reservation, size: Decimal, status: OrderStatus): Reservation {
    var left := MaxD(Sub(r.size, size), ZERO);
    r.(size := left,
       notional := if r.size.raw > 0 then Mul(r.notional, Div(left, r.size)) else ZERO,
       status := if left.raw == 0 || status == Filled then Consumed else Active)
  }

  function ConsumeReservation(rows: seq<Reservation>, order: nat, size: Decimal, status: OrderStatus): seq<Reservation> {
    var i := FindReservation(rows, order);
    if i.Some? && rows[i.value].status == Active
    then rows[i.value := ConsumedReservation(rows[i.value], size, status)] else rows
  }

  /** The position projection: the exchange's starting position moved by the fill. */
  function PositionAfterFill(f: Fill): Decimal {
    if f.target.side == Buy then Add(f.start, f.size) else Sub(f.start, f.size)
  }

  function UpsertPosition(rows: seq<PositionRow>, symbol: string, size: Decimal, mark: Decimal): seq<PositionRow> {
    match FindPositionIndex(rows, symbol)
    case Some(i) => rows[i := rows[i].(size := size, mark := Some(mark))]
    case None => rows + [PositionRow(symbol, size, Some(mark))]
  }

  /** The fact columns: sizes and prices of fills are positive by a table constraint. */
  predicate FillAllowed(f: Fill) { f.size.raw > 0 && f.price.raw > 0 }

  function IngestFill(t: Tables, f: Fill): (Tables, Outcome) {
    if f.externalId in t.inbox then (t, Duplicate) else
    match FindOrCreate(t.orders, f.target)
    case None => (t, Aborted)
    case Some((orders, i)) =>
      var found := orders[i].(isSpot := orders[i].isSpot || SpotCoin(f.target.coin));
      if !FillAllowed(f) || !RowAllowed(found) then (t, Aborted) else
      var row := FilledRow(found, f.size, f.price);
      var positions := if found.isSpot then t.positions
        else UpsertPosition(t.positions, row.symbol, PositionAfterFill(f), f.price);
      var entries := [EntryRow(f.externalId, RealizedPnl, f.pnl), EntryRow(f.externalId, Fee, Neg(f.fee))];
      (Record(
        t.(orders := orders,
           reservations := ConsumeReservation(t.reservations, i, f.size, row.status),
           positions := positions,
           fills := t.fills + [FillRow(f.externalId, i, f.size, f.price)],
           entries := t.entries + entries,
           inbox := t.inbox + {f.externalId}),
        i, row, "exchange_fill", "exchange.fill.ingested"), Done)
  }

  datatype OrderUpdate = OrderUpdate(externalId: string, target: ExchangeRef, limit: Option<Decimal>, status: OrderStatus)

  /** The client id the order carries after the update, or None when it collides with another order. */
  function TransferredCloid(orders: seq<OrderRow>, i: nat, cloid: string): Option<string>
    requires i < |orders|
  {
    if !CanonicalCloid(cloid) || orders[i].cloid == cloid then Some(orders[i].cloid)
    else match FindByCloid(orders, cloid)
      case None => Some(cloid)
      case Some(j) => if j == i then Some(orders[i].cloid) else None
  }

  function UpdatedStatus(current: OrderStatus, event: OrderStatus): OrderStatus {
    var prevented := current == Filled && Terminal(event) && event != Filled;
    if !prevented && (!Terminal(current) || Terminal(event)) then event else current
  }

  function UpdatedRow(o: OrderRow, u: OrderUpdate, cloid: string): OrderRow {
    o.(cloid := cloid,
       symbol := if u.target.coin != "" then u.target.coin else o.symbol,
       side := u.target.side,
       size := if u.target.size.Some? then u.target.size.value else o.size,
       price := if u.limit.Some? && u.limit.value.raw > 0 then u.limit else o.price,
       status := UpdatedStatus(o.status, u.status))
  }

  function IngestOrderUpdate(t: Tables, u: OrderUpdate): (Tables, Outcome) {
    if u.externalId in t.inbox then (t, Duplicate) else
    match FindOrCreate(t.orders, u.target)
    case None => (t, Aborted)
    case Some((orders, i)) =>
      match TransferredCloid(orders, i, u.target.cloid)
      case None => (t, Aborted)
      case Some(cloid) =>
        var row := UpdatedRow(orders[i], u, cloid);
        if !RowAllowed(row) then (t, Aborted) else
        (Record(
          t.(orders := orders,
             reservations := CloseReservation(t.reservations, i, u.status),
             inbox := t.inbox + {u.externalId}),
          i, row, "exchange_order_update", "exchange.order.updated"), Done)
  }

  // ------------------------------------------------------------------ steps

  datatype Step =
    | Place(placement: Placement)
    | Transit(transition: Transition)
    | RequestCancel(cloid: string, command: nat, now: int)
    | Reconcile(order: OrderRow)
    | TakeFill(fill: Fill)
    | TakeUpdate(update: OrderUpdate)

  function Apply(t: Tables, cfg: Config, s: Step): (Tables, Outcome) {
    match s
    case Place(p) => PersistPlacement(t, cfg, p)
    case Transit(x) => PersistTransition(t, x)
    case RequestCancel(cloid, command, now) => PersistCancelRequested(t, cloid, command, now)
    case Reconcile(x) => PersistReconciled(t, x)
    case TakeFill(f) => IngestFill(t, f)
    case TakeUpdate(u) => IngestOrderUpdate(t, u)
  }

  /** The tables after any sequence of transactions, in commit order. */
  function Run(t: Tables, cfg: Config, steps: seq<Step>): Tables {
    if steps == [] then t
    else Apply(Run(t, cfg, steps[..|steps| - 1]), cfg, steps[|steps| - 1]).0
  }

  const EMPTY: Tables := Tables(None, [], [], [], [], [], [], [], [], {})
}
