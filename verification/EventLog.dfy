/**
 The order event log and the order rows of the outbox carry, for every order, exactly the
 revisions 1, 2, ..., revision of its row, in that order, after any sequence of transactions.
 */
module EventLog {
  import opened Options
  import opened RiskAdmission
  import opened OrderLedger

  /** The revisions logged for one order, oldest first. */
  ghost function Revisions(log: seq<LogRow>, order: nat): seq<nat> {
    if log == [] then [] else
    var last := log[|log| - 1];
    Revisions(log[..|log| - 1], order) + (if last.order == order then [last.revision] else [])
  }

  ghost function UpTo(n: nat): seq<nat> { seq(n, i => i + 1) }

  ghost function RevisionOf(orders: seq<OrderRow>, order: nat): nat {
    if order < |orders| then orders[order].revision else 0
  }

  /** No revision of any order is missing, repeated or out of order, in either log. */
  ghost predicate GapFree(t: Tables) {
    forall order: nat ::
      && Revisions(t.events, order) == UpTo(RevisionOf(t.orders, order))
      && Revisions(t.outbox, order) == UpTo(RevisionOf(t.orders, order))
  }

  lemma {:induction false} Append(log: seq<LogRow>, row: LogRow, order: nat)
    ensures Revisions(log + [row], order) == Revisions(log, order) + (if row.order == order then [row.revision] else [])
  {
    assert (log + [row])[..|log|] == log;
  }

  lemma {:induction false} UpToNext(n: nat)
    ensures UpTo(n + 1) == UpTo(n) + [n + 1]
  {
  }

  lemma {:induction false} RecordKeepsGapFree(t: Tables, order: nat, row: OrderRow, event: string, outboxEvent: string)
    requires order < |t.orders| && GapFree(t)
    ensures GapFree(Record(t, order, row, event, outboxEvent))
  {
    var after := Record(t, order, row, event, outboxEvent);
    var revision := t.orders[order].revision + 1;
    forall o: nat
      ensures Revisions(after.events, o) == UpTo(RevisionOf(after.orders, o))
      ensures Revisions(after.outbox, o) == UpTo(RevisionOf(after.orders, o))
    {
      Append(t.events, LogRow(order, revision, event), o);
      Append(t.outbox, LogRow(order, revision, outboxEvent), o);
      UpToNext(revision - 1);
    }
  }

  lemma {:induction false} RecordNewKeepsGapFree(t: Tables, row: OrderRow, event: string, outboxEvent: string)
    requires GapFree(t)
    ensures GapFree(RecordNew(t, row, event, outboxEvent))
  {
    var after := RecordNew(t, row, event, outboxEvent);
    forall o: nat
      ensures Revisions(after.events, o) == UpTo(RevisionOf(after.orders, o))
      ensures Revisions(after.outbox, o) == UpTo(RevisionOf(after.orders, o))
    {
      Append(t.events, LogRow(|t.orders|, 1, event), o);
      Append(t.outbox, LogRow(|t.orders|, 1, outboxEvent), o);
      assert UpTo(1) == [1];
    }
  }

  /** Only revisions matter: other columns and tables may change freely. */
  lemma {:induction false} SameRevisionsStayGapFree(t: Tables, u: Tables)
    requires GapFree(t) && u.events == t.events && u.outbox == t.outbox
    requires forall order: nat :: RevisionOf(u.orders, order) == RevisionOf(t.orders, order)
    ensures GapFree(u)
  {
  }

  /** Adopting an exchange id or projecting a new order (at revision 0) moves no revision. */
  lemma {:induction false} FindOrCreateKeepsRevisions(orders: seq<OrderRow>, x: ExchangeRef)
    requires FindOrCreate(orders, x).Some?
    ensures forall order: nat :: RevisionOf(FindOrCreate(orders, x).value.0, order) == RevisionOf(orders, order)
  {
  }

  /** The tables an ingestion records from, after its lookup. */
  lemma {:induction false} IngestKeepsGapFree(t: Tables, s: Step)
    requires GapFree(t) && (s.TakeFill? || s.TakeUpdate?)
    ensures GapFree(if s.TakeFill? then IngestFill(t, s.fill).0 else IngestOrderUpdate(t, s.update).0)
  {
    var x := if s.TakeFill? then s.fill.target else s.update.target;
    var found := FindOrCreate(t.orders, x);
    if found.Some? {
      FindOrCreateKeepsRevisions(t.orders, x);
      var (orders, i) := found.value;
      if s.TakeFill? {
        var f := s.fill;
        var (after, outcome) := IngestFill(t, f);
        if outcome == Done {
          var base := after.(orders := orders, events := t.events, outbox := t.outbox);
          SameRevisionsStayGapFree(t, base);
          var o := orders[i].(isSpot := orders[i].isSpot || SpotCoin(x.coin));
          RecordKeepsGapFree(base, i, FilledRow(o, f.size, f.price), "exchange_fill", "exchange.fill.ingested");
        }
      } else {
        var u := s.update;
        var (after, outcome) := IngestOrderUpdate(t, u);
        if outcome == Done {
          var base := after.(orders := orders, events := t.events, outbox := t.outbox);
          SameRevisionsStayGapFree(t, base);
          var row := UpdatedRow(orders[i], u, TransferredCloid(orders, i, x.cloid).value);
          RecordKeepsGapFree(base, i, row, "exchange_order_update", "exchange.order.updated");
        }
      }
    }
  }

  /** A duplicate or an aborted transaction adds no row anywhere. */
  lemma {:induction false} OnlyDoneChangesTables(t: Tables, cfg: Config, s: Step)
    ensures Apply(t, cfg, s).1 != Done ==> Apply(t, cfg, s).0 == t
  {
  }

  lemma {:induction false} StepKeepsGapFree(t: Tables, cfg: Config, s: Step)
    requires GapFree(t)
    ensures GapFree(Apply(t, cfg, s).0)
  {
    OnlyDoneChangesTables(t, cfg, s);
    var (after, outcome) := Apply(t, cfg, s);
    if outcome == Done {
      var base := after.(orders := t.orders, events := t.events, outbox := t.outbox);
      SameRevisionsStayGapFree(t, base);
      match s
      case Place(p) =>
        var event := if Dispatches(t, cfg, p) then "submitted" else "rejected";
        RecordNewKeepsGapFree(base, PlacedRow(t, cfg, p), event, "order." + event);
      case Transit(x) =>
        var i := FindByCloid(t.orders, x.cloid).value;
        RecordKeepsGapFree(base, i, MergeTransport(t.orders[i], x).value, x.event, "order." + x.event);
      case RequestCancel(cloid, command, now) =>
        var i := FindByCloid(t.orders, cloid).value;
        RecordKeepsGapFree(base, i, t.orders[i], "cancel_requested", "order.cancel_requested");
      case Reconcile(x) =>
        match FindByCloid(t.orders, x.cloid) {
          case None => RecordNewKeepsGapFree(base, x.(avg := None), "reconciled_import", "order.reconciled_import");
          case Some(i) =>
            RecordKeepsGapFree(base, i, MergeReconciled(t.orders[i], x), "reconciled_import", "order.reconciled_import");
        }
      case TakeFill(_) => IngestKeepsGapFree(t, s);
      case TakeUpdate(_) => IngestKeepsGapFree(t, s);
    }
  }

  /** The event log is gap-free after any run of transactions from a gap-free state. */
  lemma {:induction false} RunKeepsGapFree(t: Tables, cfg: Config, steps: seq<Step>)
    requires GapFree(t)
    ensures GapFree(Run(t, cfg, steps))
  {
    if steps != [] {
      RunKeepsGapFree(t, cfg, steps[..|steps| - 1]);
      StepKeepsGapFree(Run(t, cfg, steps[..|steps| - 1]), cfg, steps[|steps| - 1]);
    }
  }

  /** In particular from the empty database. */
  lemma {:induction false} EventLogIsGapFree(account: Option<Account>, cfg: Config, steps: seq<Step>)
    ensures GapFree(Run(EMPTY.(account := account), cfg, steps))
  {
    RunKeepsGapFree(EMPTY.(account := account), cfg, steps);
  }
}
