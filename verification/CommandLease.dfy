/**
 Which command a claim hands out, and for how long nobody else gets it, in terms of the rows and clocks alone.
 */
module CommandLease {
  import opened Options
  import opened CommandQueue

  /** The worker's lease ran out before now. */
  predicate RunOut(row: CommandRow, now: int, lease: int) {
    row.status == Processing && row.lockedAt.Some? && row.lockedAt.value + lease < now
  }

  /** An order command that is waiting or uncertain and available, or whose worker's lease ran out. */
  predicate Due(row: CommandRow, now: int, lease: int) {
    && row.kind in {PlaceOrder, CancelOrder}
    && ((row.status in {Pending, Unknown} && row.availableAt <= now) || RunOut(row, now, lease))
  }

  /** a comes no later than b: by lower priority number, then by age. */
  predicate NoLater(a: CommandRow, b: CommandRow) {
    a.priority < b.priority || (a.priority == b.priority && a.createdAt <= b.createdAt)
  }

  /** What a claim does to a row it does not hand out. */
  function Swept(row: CommandRow, now: int, lease: int): CommandRow {
    if row.kind in {PlaceOrder, CancelOrder} && RunOut(row, now, lease)
    then row.(status := Unknown, lockedAt := None, lockedBy := None, availableAt := now) else row
  }

  /** The row at i is handed out to the worker: first among the due and unlocked rows, blind only if it was waiting. */
  ghost predicate HandsOut(
    before: seq<CommandRow>, after: seq<CommandRow>, h: Handout,
    worker: string, now: int, lease: int, busy: set<nat>, i: nat)
  {
    && i < |before| && |after| == |before|
    && Due(before[i], now, lease) && before[i].id !in busy
    && (forall j | 0 <= j < |before| && Due(before[j], now, lease) && before[j].id !in busy :: NoLater(before[i], before[j]))
    && h == Handout(before[i].id, before[i].kind, before[i].attempts + 1, before[i].status != Pending)
    && after[i] == Swept(before[i], now, lease).(
         status := Processing, lockedAt := Some(now), lockedBy := Some(worker), attempts := before[i].attempts + 1)
    && forall j | 0 <= j < |before| && j != i :: after[j] == Swept(before[j], now, lease)
  }

  lemma {:induction false} SweptReadyIffDue(row: CommandRow, now: int, lease: int)
    ensures Expired(row, now - lease, now) == Swept(row, now, lease)
    ensures Ready(Swept(row, now, lease), now) <==> Due(row, now, lease)
    ensures NoLater(row, Swept(row, now, lease)) && NoLater(Swept(row, now, lease), row)
  {
  }

  /** A claim hands out the first due and unlocked command, and nothing only if there is none. */
  lemma {:induction false} ClaimTakesFirstDue(
    before: seq<CommandRow>, after: seq<CommandRow>, out: Option<Handout>,
    worker: string, now: int, lease: int, busy: set<nat>)
    requires ClaimStep(before, after, out, worker, now, lease, busy)
    ensures out.None? ==>
      && (forall i | 0 <= i < |before| :: Due(before[i], now, lease) ==> before[i].id in busy)
      && |after| == |before| && forall i | 0 <= i < |before| :: after[i] == Swept(before[i], now, lease)
    ensures out.Some? ==> exists i: nat :: HandsOut(before, after, out.value, worker, now, lease, busy, i)
  {
    var rows := ExpireLeases(before, now - lease, now);
    forall i | 0 <= i < |before|
      ensures rows[i] == Swept(before[i], now, lease) && (Ready(rows[i], now) <==> Due(before[i], now, lease))
    {
      SweptReadyIffDue(before[i], now, lease);
    }
    hide Due, Swept, ExpireLeases, Ready;
    if out.None? {
      NothingClaimable(rows, now, busy);
    } else {
      var i: nat :| Claimable(rows, i, now, busy) && out.value == HandoutOf(rows[i])
                    && after == rows[i := Leased(rows[i], worker, now)];
      HandedFromSwept(before[i], now, lease);
      forall j | 0 <= j < |before| && Due(before[j], now, lease) && before[j].id !in busy
        ensures NoLater(before[i], before[j])
      {
        SweptReadyIffDue(before[i], now, lease);
        SweptReadyIffDue(before[j], now, lease);
        SweptKeepsOrder(before[j], now, lease);
        SweptKeepsOrder(before[i], now, lease);
        assert !Ahead(rows[j], rows[i]);
      }
      assert HandsOut(before, after, out.value, worker, now, lease, busy, i);
    }
  }

  lemma {:induction false} SweptKeepsOrder(row: CommandRow, now: int, lease: int)
    ensures var r := Swept(row, now, lease);
      r.id == row.id && r.kind == row.kind && r.priority == row.priority && r.createdAt == row.createdAt
      && r.attempts == row.attempts
  {
  }

  lemma {:induction false} HandedFromSwept(row: CommandRow, now: int, lease: int)
    ensures HandoutOf(Swept(row, now, lease)).id == row.id && HandoutOf(Swept(row, now, lease)).kind == row.kind
    ensures HandoutOf(Swept(row, now, lease)).attempt == row.attempts + 1
    ensures Due(row, now, lease) ==> (HandoutOf(Swept(row, now, lease)).requiresResolution <==> row.status != Pending)
    ensures Swept(row, now, lease).id == row.id && Swept(row, now, lease).attempts == row.attempts
  {
  }

  /** If nothing can be claimed, no unlocked row is ready: a first one among the ready rows would be claimable. */
  lemma {:induction false} NothingClaimable(rows: seq<CommandRow>, now: int, busy: set<nat>)
    requires forall i: nat :: !Claimable(rows, i, now, busy)
    ensures forall i | 0 <= i < |rows| :: Ready(rows[i], now) ==> rows[i].id in busy
  {
    if i :| 0 <= i < |rows| && Ready(rows[i], now) && rows[i].id !in busy {
      var first := FirstReady(rows, now, busy, |rows|);
      assert Claimable(rows, first, now, busy);
    }
  }

  lemma {:induction false} FirstReady(rows: seq<CommandRow>, now: int, busy: set<nat>, n: nat) returns (first: nat)
    requires n <= |rows| && exists i | 0 <= i < n :: Ready(rows[i], now) && rows[i].id !in busy
    ensures first < n && Ready(rows[first], now) && rows[first].id !in busy
    ensures forall j | 0 <= j < n && Ready(rows[j], now) && rows[j].id !in busy :: !Ahead(rows[j], rows[first])
  {
    hide Ready;
    var last := n - 1;
    if exists i | 0 <= i < last :: Ready(rows[i], now) && rows[i].id !in busy {
      first := FirstReady(rows, now, busy, last);
      if Ready(rows[last], now) && rows[last].id !in busy && Ahead(rows[last], rows[first]) { first := last; }
    } else {
      first := last;
    }
  }

  /** A due command is handed out by some claim, for instance when all others are locked. */
  lemma {:induction false} DueIsHandedOut(rows: seq<CommandRow>, i: nat, worker: string, now: int, lease: int)
    requires UniqueIds(rows) && i < |rows| && Due(rows[i], now, lease)
    ensures var others := set j | 0 <= j < |rows| && j != i :: rows[j].id;
      var h := Some(Handout(rows[i].id, rows[i].kind, rows[i].attempts + 1, rows[i].status != Pending));
      exists after :: ClaimStep(rows, after, h, worker, now, lease, others)
  {
    var others := set j | 0 <= j < |rows| && j != i :: rows[j].id;
    var expired := ExpireLeases(rows, now - lease, now);
    SweptReadyIffDue(rows[i], now, lease);
    HandedFromSwept(rows[i], now, lease);
    assert expired[i] == Swept(rows[i], now, lease);
    assert Claimable(expired, i, now, others) by {
      forall j | 0 <= j < |expired| && expired[j].id !in others ensures j == i { assert expired[j].id == rows[j].id; }
    }
    var after := expired[i := Leased(expired[i], worker, now)];
    assert ClaimStep(rows, after, Some(HandoutOf(expired[i])), worker, now, lease, others);
  }

  // ------------------------------------------------------------ over queue runs

  /** A step that comes while a lease taken at a time lasts, and is not by the worker that holds it. */
  predicate DuringLease(step: Step, id: nat, at: int) {
    match step
    case Insert(_) => true
    case InsertIdempotent(_) => true
    case SetStatus(other, _) => other != id
    case Defer(other, _, _) => other != id
    case Claim(_, now, lease, _) => now <= at + lease
  }

  /** The command is held under a lease taken at that time. */
  ghost predicate Held(rows: seq<CommandRow>, id: nat, at: int) {
    exists i | 0 <= i < |rows| :: rows[i].id == id && rows[i].status == Processing && rows[i].lockedAt == Some(at)
  }

  lemma {:induction false} StepKeepsHeld(
    before: seq<CommandRow>, step: Step, after: seq<CommandRow>, out: Option<Handout>, id: nat, at: int)
    requires GoodTable(before) && Permitted(step) && Next(before, step, after, out)
    requires Held(before, id, at) && DuringLease(step, id, at)
    ensures Held(after, id, at) && (out.Some? ==> out.value.id != id)
  {
    var i :| 0 <= i < |before| && before[i].id == id && before[i].status == Processing && before[i].lockedAt == Some(at);
    match step
    case Insert(row) => assert after[i] == before[i];
    case InsertIdempotent(row) => assert after[i] == before[i];
    case SetStatus(_, _) => assert after[i] == before[i];
    case Defer(_, _, _) => assert after[i] == before[i];
    case Claim(worker, now, lease, busy) =>
      ClaimTakesFirstDue(before, after, out, worker, now, lease, busy);
      if out.Some? {
        var j: nat :| HandsOut(before, after, out.value, worker, now, lease, busy, j);
        assert j != i;
        assert before[j].id != before[i].id;
      }
      assert after[i] == before[i];
  }

  /** While a lease lasts nobody else is handed the command, whatever the other workers do in any run. */
  lemma {:induction false} LeaseHolds(
    steps: seq<Step>, tables: seq<seq<CommandRow>>, history: seq<Option<Handout>>, j: nat, k: nat)
    requires IsRun(steps, tables, history) && j < k < |history|
    requires history[j].Some? && steps[j].Claim?
    requires forall m | j < m <= k :: DuringLease(steps[m], history[j].value.id, steps[j].now)
    ensures Held(tables[k + 1], history[j].value.id, steps[j].now)
    ensures history[k].Some? ==> history[k].value.id != history[j].value.id
  {
    var id, at := history[j].value.id, steps[j].now;
    RunKeepsInv(steps, tables, history, k);
    if j + 1 < k {
      LeaseHolds(steps, tables, history, j, k - 1);
    } else {
      ClaimTakesFirstDue(tables[j], tables[j + 1], history[j], steps[j].worker, at, steps[j].lease, steps[j].busy);
      var i: nat :| HandsOut(tables[j], tables[j + 1], history[j].value, steps[j].worker, at, steps[j].lease, steps[j].busy, i);
      assert tables[k][i].id == id && tables[k][i].status == Processing && tables[k][i].lockedAt == Some(at);
      assert Held(tables[k], id, at);
    }
    StepKeepsHeld(tables[k], steps[k], tables[k + 1], history[k], id, at);
  }

  /** An uncertain command waits out the recheck delay, and can then be handed out for resolution. */
  lemma {:induction false} DeferredWaits(rows: seq<CommandRow>, i: nat, now: int, recheck: int, later: int, lease: int)
    requires UniqueIds(rows) && i < |rows| && rows[i].kind in {PlaceOrder, CancelOrder}
    ensures var after := DeferUnknown(rows, rows[i].id, now, recheck);
      && |after| == |rows| && (forall j | 0 <= j < |rows| && j != i :: after[j] == rows[j])
      && after[i].id == rows[i].id && after[i].status == Unknown && after[i].attempts == rows[i].attempts
      && (Due(after[i], later, lease) <==> later >= now + recheck)
  {
    assert UpdateTarget(rows, rows[i].id) == Some(i);
  }
}
