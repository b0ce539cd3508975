/**
 What a placement writes and what becomes of it: the order, its reservation and its command agree on whether the
 order goes out, and a worker is handed the command exactly when it does.
 */
module PlacementOutcome {
  import opened Arith
  import opened DecimalCore
  import opened Options
  import opened RiskAdmission
  import opened OrderLedger
  import CommandQueue
  import CommandLease

  // ------------------------------------------------------- one placement

  /** The answer of the risk check on the columns of the order, the swept reservations and the locked rows. */
  ghost function Answer(t: Tables, cfg: Config, p: Placement): Verdict
    requires cfg.limits.Some?
  {
    var o := p.order;
    CheckRiskScope(
      t.account, t.positions, ActiveRows(SweptReservations(t, cfg, p)),
      OrderRequest(o.symbol, o.side, o.size, o.price, o.reduceOnly, o.isSpot), p.supplied, cfg.limits.value)
  }

  /** The order was to go out, and the check inside the transaction withdrew it. */
  ghost predicate Withdrawn(t: Tables, cfg: Config, p: Placement) {
    p.dispatch && p.riskPassed && cfg.limits.Some? && Answer(t, cfg, p) != Passed
  }

  ghost predicate GoesOut(t: Tables, cfg: Config, p: Placement) { p.dispatch && !Withdrawn(t, cfg, p) }

  /** The order row: as requested, without exchange id and average, rejected with a reason if withdrawn. */
  lemma {:induction false} PlacedOrder(t: Tables, cfg: Config, p: Placement)
    requires PersistPlacement(t, cfg, p).1 == Done
    ensures var u, n := PersistPlacement(t, cfg, p).0, |t.orders|;
      && |u.orders| == n + 1 && u.orders[..n] == t.orders
      && var row := u.orders[n];
         && row == p.order.(oid := None, avg := None, revision := 1, status := row.status, error := row.error)
         && (Withdrawn(t, cfg, p) ==> row.status == Rejected && row.error == Some(ReasonText(Answer(t, cfg, p).reason)))
         && (!Withdrawn(t, cfg, p) ==> row.status == p.order.status && row.error == p.order.error)
  {
    hide CheckRiskScope, ActiveRows, SweptReservations, Mul, ReferencePrice, FindByCloid;
  }

  /** The reservation: written exactly when the order goes out, for its full size at the reference price. */
  lemma {:induction false} PlacedReservation(t: Tables, cfg: Config, p: Placement, q: int)
    requires PersistPlacement(t, cfg, p).1 == Done
    requires RoundsHalfAway(
      p.order.size.raw * ReferencePrice(
        OrderRequest(p.order.symbol, p.order.side, p.order.size, p.order.price, p.order.reduceOnly, p.order.isSpot),
        t.positions, p.supplied).raw, SCALE, q)
    ensures var u, swept := PersistPlacement(t, cfg, p).0, SweptReservations(t, cfg, p);
      if GoesOut(t, cfg, p) then
        && |u.reservations| == |t.reservations| + 1 && u.reservations[..|t.reservations|] == swept
        && u.reservations[|t.reservations|] == Reservation(
             |t.orders|, p.order.symbol, p.order.side, p.order.reduceOnly || p.order.riskReducing,
             p.order.size, Decimal(ClampI128(q)), Active, p.now + cfg.ttl)
      else u.reservations == swept
  {
    hide CheckRiskScope, ActiveRows, Mul, ReferencePrice, FindByCloid, RoundsHalfAway;
    var request := Request(p.order);
    MulIsCorrectlyRounded(p.order.size, ReferencePrice(request, t.positions, p.supplied));
    assert |SweptReservations(t, cfg, p)| == |t.reservations|;
  }

  /** A reservation is swept exactly when it is active, past its expiry, and its order has ended. */
  lemma {:induction false} SweptIff(t: Tables, cfg: Config, p: Placement, i: nat)
    requires i < |t.reservations|
    ensures |SweptReservations(t, cfg, p)| == |t.reservations|
    ensures var r, r' := t.reservations[i], SweptReservations(t, cfg, p)[i];
      var sweeps := p.dispatch && p.riskPassed && cfg.limits.Some? && t.account.Some? && !t.account.value.stale;
      if sweeps && r.status == Active && r.expiresAt <= p.now && r.order < |t.orders|
         && t.orders[r.order].status in {Filled, Cancelled, Rejected, Expired}
      then r' == r.(status := Lapsed) else r' == r
  {
  }

  /** The command: one new row with the placement's id and client id, to be claimed exactly when the order goes out. */
  lemma {:induction false} PlacedCommand(t: Tables, cfg: Config, p: Placement)
    requires PersistPlacement(t, cfg, p).1 == Done
    ensures var u, n := PersistPlacement(t, cfg, p).0, |t.commands|;
      && |u.commands| == n + 1 && u.commands[..n] == t.commands
      && (forall i | 0 <= i < n :: t.commands[i].id != p.command)
      && var row := u.commands[n];
         && row.id == p.command && row.key == p.order.cloid && row.kind == CommandQueue.PlaceOrder
         && row.priority == 100 && row.createdAt == p.now
         && row.attempts == 0 && row.lockedAt.None? && row.availableAt == p.now
         && row.status == (if GoesOut(t, cfg, p) then CommandQueue.Pending else CommandQueue.Failed)
  {
    hide CheckRiskScope, ActiveRows, SweptReservations, Mul, ReferencePrice, FindByCloid;
  }

  /** A new client id is placed unless a table constraint forbids the order, its command or its reservation. */
  lemma {:induction false} PlacementCommitsIff(t: Tables, cfg: Config, p: Placement, q: int)
    requires forall o <- t.orders :: o.cloid != p.order.cloid
    requires RoundsHalfAway(
      p.order.size.raw * ReferencePrice(
        OrderRequest(p.order.symbol, p.order.side, p.order.size, p.order.price, p.order.reduceOnly, p.order.isSpot),
        t.positions, p.supplied).raw, SCALE, q)
    ensures var actor := if p.order.strategy.Some? then p.order.strategy.value else "execution_engine";
      PersistPlacement(t, cfg, p).1 ==
        if RowAllowed(p.order) && (GoesOut(t, cfg, p) ==> q >= 0)
           && forall c <- t.commands :: c.id != p.command && !(c.actor == actor && c.key == p.order.cloid)
        then Done else Aborted
  {
    hide CheckRiskScope, ActiveRows, SweptReservations, Mul, ReferencePrice, RoundsHalfAway;
    MulIsCorrectlyRounded(p.order.size, ReferencePrice(Request(p.order), t.positions, p.supplied));
  }

  /** A repeated placement of a client id changes nothing and repeats the first answer. */
  lemma {:induction false} RepeatedPlacement(t: Tables, cfg: Config, p: Placement, i: nat)
    requires i < |t.orders| && t.orders[i].cloid == p.order.cloid
    requires forall j | 0 <= j < |t.orders| && j != i :: t.orders[j].cloid != p.order.cloid
    ensures PersistPlacement(t, cfg, p) ==
      (t, if t.orders[i].status == Rejected then DuplicateRejected else Duplicate)
  {
    hide Dispatches, SweptReservations, PlacedRow, NewReservation, PlaceCommand;
  }

  // ------------------------------------------------------- over runs of work

  /** Ledger transactions and the workers' transactions on the commands. */
  datatype Work =
    | Ledger(step: Step)
    | Claim(worker: string, now: int, lease: int, busy: set<nat>)
    | Defer(id: nat, now: int, recheck: int)

  ghost predicate Handed(history: seq<Option<CommandQueue.Handout>>, id: nat) {
    exists k | 0 <= k < |history| :: history[k].Some? && history[k].value.id == id
  }

  /** Workers settle and defer only commands they were handed. */
  ghost predicate WorkersOwn(w: Work, history: seq<Option<CommandQueue.Handout>>) {
    match w
    case Ledger(s) => s.Transit? && s.transition.command.Some? ==> Handed(history, s.transition.command.value.0)
    case Claim(_, _, _, _) => true
    case Defer(id, _, _) => Handed(history, id)
  }

  ghost predicate WorkStep(
    t: Tables, cfg: Config, w: Work, u: Tables, out: Option<CommandQueue.Handout>)
  {
    match w
    case Ledger(s) => out == None && u == Apply(t, cfg, s).0
    case Claim(worker, now, lease, busy) =>
      u == t.(commands := u.commands) && CommandQueue.ClaimStep(t.commands, u.commands, out, worker, now, lease, busy)
    case Defer(id, now, recheck) =>
      out == None && u == t.(commands := CommandQueue.DeferUnknown(t.commands, id, now, recheck))
  }

  ghost predicate IsWork(
    cfg: Config, works: seq<Work>, tables: seq<Tables>, history: seq<Option<CommandQueue.Handout>>)
  {
    && |tables| == |works| + 1 && |history| == |works| && CommandQueue.UniqueIds(tables[0].commands)
    && forall k | 0 <= k < |works| ::
         WorkersOwn(works[k], history[..k]) && WorkStep(tables[k], cfg, works[k], tables[k + 1], history[k])
  }

  /** The command row at i, not processing, is as it was, unless its command is settled, deferred or handed out. */
  ghost predicate LeavesAlone(
    a: seq<CommandQueue.CommandRow>, b: seq<CommandQueue.CommandRow>, i: nat, out: Option<CommandQueue.Handout>)
  {
    && |a| <= |b| && CommandQueue.UniqueIds(b)
    && (i < |a| && a[i].status != CommandQueue.Processing ==>
          b[i] == a[i] || (out.Some? && out.value.id == a[i].id
                           && a[i].status in {CommandQueue.Pending, CommandQueue.Unknown}))
  }

  lemma {:induction false} InsertLeavesAlone(
    a: seq<CommandQueue.CommandRow>, row: CommandQueue.CommandRow, i: nat)
    requires CommandQueue.UniqueIds(a) && CommandQueue.InsertCommand(a, row).Some?
    ensures LeavesAlone(a, a + [row], i, None)
  {
  }

  lemma {:induction false} UpdateLeavesAlone(
    a: seq<CommandQueue.CommandRow>, j: nat, row: CommandQueue.CommandRow, i: nat)
    requires CommandQueue.UniqueIds(a) && j < |a| && row.id == a[j].id && j != i
    ensures LeavesAlone(a, a[j := row], i, None)
  {
    var b := a[j := row];
    forall k, l | 0 <= k < l < |b| ensures b[k].id != b[l].id { assert a[k].id != a[l].id; }
  }

  lemma {:induction false} LedgerLeavesAlone(t: Tables, cfg: Config, s: Step, i: nat)
    requires CommandQueue.UniqueIds(t.commands) && i < |t.commands|
    requires s.Transit? && s.transition.command.Some? ==> s.transition.command.value.0 != t.commands[i].id
    ensures LeavesAlone(t.commands, Apply(t, cfg, s).0.commands, i, None)
  {
    hide FindByCloid, FindOrCreate, MergeTransport, MergeReconciled, RowAllowed, UpdatedRow, TransferredCloid;
    hide CloseReservation, ConsumeReservation, FilledRow, UpsertPosition, Dispatches, SweptReservations, NewReservation;
    var after := Apply(t, cfg, s).0.commands;
    match s
    case Place(p) =>
      if after != t.commands { InsertLeavesAlone(t.commands, PlaceCommand(t, cfg, p), i); }
    case Transit(x) =>
      if after != t.commands {
        var (id, status) := x.command.value;
        var j := CommandQueue.UpdateTarget(t.commands, id).value;
        UpdateLeavesAlone(t.commands, j, t.commands[j].(status := status, lockedAt := None, lockedBy := None), i);
      }
    case RequestCancel(cloid, command, now) =>
      if after != t.commands { InsertLeavesAlone(t.commands, CancelCommand(cloid, command, now), i); }
    case Reconcile(_) =>
    case TakeFill(_) =>
    case TakeUpdate(_) =>
  }

  lemma {:induction false} ClaimLeavesAlone(
    a: seq<CommandQueue.CommandRow>, b: seq<CommandQueue.CommandRow>, out: Option<CommandQueue.Handout>,
    worker: string, now: int, lease: int, busy: set<nat>, i: nat)
    requires CommandQueue.UniqueIds(a) && i < |a| && CommandQueue.ClaimStep(a, b, out, worker, now, lease, busy)
    ensures LeavesAlone(a, b, i, out)
  {
    var rows := CommandQueue.ExpireLeases(a, now - lease, now);
    forall k, l | 0 <= k < l < |a| ensures rows[k].id != rows[l].id { assert a[k].id != a[l].id; }
    if out.Some? {
      var j: nat :| CommandQueue.Claimable(rows, j, now, busy) && out.value == CommandQueue.HandoutOf(rows[j])
                    && b == rows[j := CommandQueue.Leased(rows[j], worker, now)];
      forall k, l | 0 <= k < l < |a| ensures b[k].id != b[l].id { assert rows[k].id != rows[l].id; }
    }
  }

  lemma {:induction false} WorkLeavesAlone(
    t: Tables, cfg: Config, w: Work, u: Tables, out: Option<CommandQueue.Handout>,
    history: seq<Option<CommandQueue.Handout>>, i: nat)
    requires CommandQueue.UniqueIds(t.commands) && WorkStep(t, cfg, w, u, out) && WorkersOwn(w, history)
    requires i < |t.commands| && !Handed(history, t.commands[i].id)
    ensures LeavesAlone(t.commands, u.commands, i, out)
  {
    hide Apply;
    match w
    case Ledger(s) => LedgerLeavesAlone(t, cfg, s, i);
    case Claim(worker, now, lease, busy) =>
      ClaimLeavesAlone(t.commands, u.commands, out, worker, now, lease, busy, i);
    case Defer(id, now, recheck) =>
      var target := CommandQueue.UpdateTarget(t.commands, id);
      if target.Some? {
        UpdateLeavesAlone(t.commands, target.value, CommandQueue.Deferred(t.commands[target.value], now, recheck), i);
      }
  }

  /** Ids stay unique, and what was handed out is in the table. */
  ghost predicate Consistent(t: Tables, history: seq<Option<CommandQueue.Handout>>) {
    && CommandQueue.UniqueIds(t.commands)
    && forall k | 0 <= k < |history| && history[k].Some? :: InTable(t, history[k].value.id)
  }

  ghost predicate InTable(t: Tables, id: nat) { exists i | 0 <= i < |t.commands| :: t.commands[i].id == id }

  lemma {:induction false} WorkKeepsConsistent(
    t: Tables, cfg: Config, w: Work, u: Tables, out: Option<CommandQueue.Handout>,
    history: seq<Option<CommandQueue.Handout>>)
    requires Consistent(t, history) && WorkStep(t, cfg, w, u, out)
    ensures Consistent(u, history + [out])
  {
    hide Apply;
    KeepsIds(t, cfg, w, u, out);
    forall k | 0 <= k < |history + [out]| && (history + [out])[k].Some?
      ensures InTable(u, (history + [out])[k].value.id)
    {
      if k < |history| {
        assert InTable(t, history[k].value.id);
        var i :| 0 <= i < |t.commands| && t.commands[i].id == history[k].value.id;
        assert u.commands[i].id == history[k].value.id;
      }
    }
  }

  lemma {:induction false} KeepsIds(
    t: Tables, cfg: Config, w: Work, u: Tables, out: Option<CommandQueue.Handout>)
    requires CommandQueue.UniqueIds(t.commands) && WorkStep(t, cfg, w, u, out)
    ensures CommandQueue.UniqueIds(u.commands) && |t.commands| <= |u.commands|
    ensures forall i | 0 <= i < |t.commands| :: u.commands[i].id == t.commands[i].id
    ensures out.Some? ==> InTable(u, out.value.id)
  {
    match w
    case Ledger(s) => LedgerKeepsIds(t, cfg, s);
    case Claim(worker, now, lease, busy) =>
      var rows := CommandQueue.ExpireLeases(t.commands, now - lease, now);
      CommandLease.ClaimTakesFirstDue(t.commands, u.commands, out, worker, now, lease, busy);
      if out.Some? {
        var i: nat :| CommandLease.HandsOut(t.commands, u.commands, out.value, worker, now, lease, busy, i);
        assert u.commands[i].id == out.value.id;
      }
      SameIdsStayUnique(t.commands, u.commands);
    case Defer(id, now, recheck) => SameIdsStayUnique(t.commands, u.commands);
  }

  lemma {:induction false} SameIdsStayUnique(a: seq<CommandQueue.CommandRow>, b: seq<CommandQueue.CommandRow>)
    requires CommandQueue.UniqueIds(a) && |b| == |a| && forall i | 0 <= i < |a| :: b[i].id == a[i].id
    ensures CommandQueue.UniqueIds(b)
  {
    forall k, l | 0 <= k < l < |b| ensures b[k].id != b[l].id { assert a[k].id != a[l].id; }
  }

  lemma {:induction false} LedgerKeepsIds(t: Tables, cfg: Config, s: Step)
    requires CommandQueue.UniqueIds(t.commands)
    ensures var after := Apply(t, cfg, s).0.commands;
      && CommandQueue.UniqueIds(after) && |t.commands| <= |after|
      && forall i | 0 <= i < |t.commands| :: after[i].id == t.commands[i].id
  {
    hide FindByCloid, FindOrCreate, MergeTransport, MergeReconciled, RowAllowed, UpdatedRow, TransferredCloid;
    hide CloseReservation, ConsumeReservation, FilledRow, UpsertPosition, Dispatches, SweptReservations, NewReservation;
    var after := Apply(t, cfg, s).0.commands;
    match s
    case Place(p) =>
      if after != t.commands { InsertLeavesAlone(t.commands, PlaceCommand(t, cfg, p), 0); }
    case Transit(x) =>
      if after != t.commands { SameIdsStayUnique(t.commands, after); }
    case RequestCancel(cloid, command, now) =>
      if after != t.commands { InsertLeavesAlone(t.commands, CancelCommand(cloid, command, now), 0); }
    case Reconcile(_) =>
    case TakeFill(_) =>
    case TakeUpdate(_) =>
  }

  lemma {:induction false} WorkIsConsistent(
    cfg: Config, works: seq<Work>, tables: seq<Tables>, history: seq<Option<CommandQueue.Handout>>, n: nat)
    requires IsWork(cfg, works, tables, history) && n <= |works|
    ensures Consistent(tables[n], history[..n])
  {
    hide WorkStep, WorkersOwn;
    if n > 0 {
      WorkIsConsistent(cfg, works, tables, history, n - 1);
      WorkKeepsConsistent(tables[n - 1], cfg, works[n - 1], tables[n], history[n - 1], history[..n - 1]);
      assert history[..n] == history[..n - 1] + [history[n - 1]];
    }
  }

  lemma {:induction false} HandedMore(history: seq<Option<CommandQueue.Handout>>, n: nat, id: nat)
    requires n < |history| && !Handed(history[..n], id) && !(history[n].Some? && history[n].value.id == id)
    ensures !Handed(history[..n + 1], id)
  {
  }

  lemma {:induction false} HandedFewer(history: seq<Option<CommandQueue.Handout>>, m: nat, n: nat, id: nat)
    requires m <= n <= |history| && Handed(history[..m], id)
    ensures Handed(history[..n], id)
  {
    var k :| 0 <= k < m && history[..m][k].Some? && history[..m][k].value.id == id;
    assert history[..n][k] == history[..m][k];
  }

  /** A command that was not handed out keeps its row; a failed one is never handed out. */
  lemma {:induction false} UnhandedStays(
    cfg: Config, works: seq<Work>, tables: seq<Tables>, history: seq<Option<CommandQueue.Handout>>,
    k: nat, n: nat, i: nat)
    requires IsWork(cfg, works, tables, history) && k <= n <= |works| && i < |tables[k].commands|
    requires var row := tables[k].commands[i];
      && row.status in {CommandQueue.Pending, CommandQueue.Failed} && !Handed(history[..k], row.id)
    ensures var row := tables[k].commands[i];
      && (row.status == CommandQueue.Failed ==> !Handed(history[..n], row.id))
      && (!Handed(history[..n], row.id) ==> i < |tables[n].commands| && tables[n].commands[i] == row)
  {
    hide WorkStep, WorkersOwn, Handed;
    var row := tables[k].commands[i];
    if k < n {
      UnhandedStays(cfg, works, tables, history, k, n - 1, i);
      if Handed(history[..n - 1], row.id) {
        HandedFewer(history, n - 1, n, row.id);
      } else {
        WorkIsConsistent(cfg, works, tables, history, n - 1);
        WorkLeavesAlone(tables[n - 1], cfg, works[n - 1], tables[n], history[n - 1], history[..n - 1], i);
        if history[n - 1].Some? && history[n - 1].value.id == row.id {
          HandedNow(history, n - 1);
          ClaimHandsOnlyDue(tables[n - 1], cfg, works[n - 1], tables[n], history[n - 1], i);
        } else {
          HandedMore(history, n - 1, row.id);
        }
      }
    }
  }

  lemma {:induction false} HandedNow(history: seq<Option<CommandQueue.Handout>>, n: nat)
    requires n < |history| && history[n].Some?
    ensures Handed(history[..n + 1], history[n].value.id)
  {
    assert history[..n + 1][n] == history[n];
  }

  lemma {:induction false} ClaimHandsOnlyDue(
    t: Tables, cfg: Config, w: Work, u: Tables, out: Option<CommandQueue.Handout>, i: nat)
    requires CommandQueue.UniqueIds(t.commands) && WorkStep(t, cfg, w, u, out)
    requires out.Some? && i < |t.commands| && out.value.id == t.commands[i].id
    ensures t.commands[i].status != CommandQueue.Failed
  {
    CommandLease.ClaimTakesFirstDue(t.commands, u.commands, out, w.worker, w.now, w.lease, w.busy);
    var j: nat :| CommandLease.HandsOut(t.commands, u.commands, out.value, w.worker, w.now, w.lease, w.busy, j);
    assert i == j;
  }

  /** Step k of the work is a placement that was stored. */
  ghost predicate Stores(cfg: Config, works: seq<Work>, tables: seq<Tables>, k: nat, p: Placement) {
    k < |works| && k < |tables| && works[k] == Ledger(Place(p)) && PersistPlacement(tables[k], cfg, p).1 == Done
  }

  lemma {:induction false} StoredIsNew(
    cfg: Config, works: seq<Work>, tables: seq<Tables>, history: seq<Option<CommandQueue.Handout>>,
    k: nat, p: Placement)
    requires IsWork(cfg, works, tables, history) && Stores(cfg, works, tables, k, p)
    ensures var n := |tables[k].commands|;
      && !Handed(history[..k + 1], p.command) && n < |tables[k + 1].commands|
      && var row := tables[k + 1].commands[n];
         && row.id == p.command && row.kind == CommandQueue.PlaceOrder && row.key == p.order.cloid
         && row.attempts == 0 && row.availableAt == p.now
         && row.status == if GoesOut(tables[k], cfg, p) then CommandQueue.Pending else CommandQueue.Failed
  {
    hide PersistPlacement, GoesOut;
    PlacedCommand(tables[k], cfg, p);
    WorkIsConsistent(cfg, works, tables, history, k);
    assert WorkStep(tables[k], cfg, works[k], tables[k + 1], history[k]);
    forall m | 0 <= m <= k && history[m].Some? ensures history[m].value.id != p.command {
      if m < k {
        assert history[..k][m] == history[m];
        assert InTable(tables[k], history[m].value.id);
      }
    }
  }

  /** The place command of an order that was withdrawn, or not to go out at all, is never handed to a worker. */
  lemma {:induction false} RefusedIsNeverHandedOut(
    cfg: Config, works: seq<Work>, tables: seq<Tables>, history: seq<Option<CommandQueue.Handout>>,
    k: nat, p: Placement)
    requires IsWork(cfg, works, tables, history) && Stores(cfg, works, tables, k, p)
    requires !GoesOut(tables[k], cfg, p)
    ensures !Handed(history, p.command)
  {
    hide IsWork, Stores, GoesOut, Handed;
    StoredIsNew(cfg, works, tables, history, k, p);
    StoredInRange(cfg, works, tables, history, k, p);
    UnhandedStays(cfg, works, tables, history, k + 1, |works|, |tables[k].commands|);
    assert history[..|works|] == history;
  }

  lemma {:induction false} StoredInRange(
    cfg: Config, works: seq<Work>, tables: seq<Tables>, history: seq<Option<CommandQueue.Handout>>,
    k: nat, p: Placement)
    requires IsWork(cfg, works, tables, history) && Stores(cfg, works, tables, k, p)
    ensures k < |works| && |tables| == |works| + 1 && |history| == |works|
  {
  }

  /**
   The place command of an order that goes out waits until a worker is handed it, and from the placement on any
   claim that finds no other command unlocked hands it out, blind and as a first attempt.
   */
  lemma {:induction false} AdmittedWaitsForAWorker(
    cfg: Config, works: seq<Work>, tables: seq<Tables>, history: seq<Option<CommandQueue.Handout>>,
    k: nat, p: Placement, n: nat, worker: string, now: int, lease: int)
    requires IsWork(cfg, works, tables, history) && Stores(cfg, works, tables, k, p) && GoesOut(tables[k], cfg, p)
    requires k < n <= |works| && !Handed(history[..n], p.command) && now >= p.now
    ensures var rows := tables[n].commands;
      var h := Some(CommandQueue.Handout(p.command, CommandQueue.PlaceOrder, 1, false));
      exists after, busy :: p.command !in busy && CommandQueue.ClaimStep(rows, after, h, worker, now, lease, busy)
  {
    hide IsWork, Stores, GoesOut, Handed;
    StoredIsNew(cfg, works, tables, history, k, p);
    StoredInRange(cfg, works, tables, history, k, p);
    var i := |tables[k].commands|;
    UnhandedStays(cfg, works, tables, history, k + 1, n, i);
    WorkIsConsistent(cfg, works, tables, history, n);
    var rows := tables[n].commands;
    CommandLease.DueIsHandedOut(rows, i, worker, now, lease);
    var others := set j | 0 <= j < |rows| && j != i :: rows[j].id;
    var h := Some(CommandQueue.Handout(p.command, CommandQueue.PlaceOrder, 1, false));
    var after :| CommandQueue.ClaimStep(rows, after, h, worker, now, lease, others);
    assert p.command !in others;
  }
}
