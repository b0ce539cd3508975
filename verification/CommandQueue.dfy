/**
 The lease queue of execution commands. A command whose lease expires, or whose exchange outcome
 is uncertain, is handed out again only for resolution: over any run, at most its first hand-out
 is blind. Rows locked by a concurrent claim are skipped, which the `busy` sets stand for.
 */
module CommandQueue {
  import opened Options

  datatype CommandKind = PlaceOrder | CancelOrder | QuotePlan

  datatype CommandStatus = Pending | Processing | Succeeded | Failed | Unknown | Cancelled

  datatype CommandRow = CommandRow(
    id: nat, kind: CommandKind, actor: string, key: string,
    status: CommandStatus, priority: int, createdAt: int, availableAt: int,
    lockedAt: Option<int>, lockedBy: Option<string>, attempts: nat)

  datatype Handout = Handout(id: nat, kind: CommandKind, attempt: nat, requiresResolution: bool)

  predicate Signed(kind: CommandKind) { kind == PlaceOrder || kind == CancelOrder }

  // ---------------------------------------------------------------- claim

  predicate LeaseExpired(row: CommandRow, cutoff: int) {
    Signed(row.kind) && row.status == Processing && row.lockedAt.Some? && row.lockedAt.value < cutoff
  }

  function Expired(row: CommandRow, cutoff: int, now: int): CommandRow {
    if LeaseExpired(row, cutoff) then
      row.(status := Unknown, lockedAt := None, lockedBy := None, availableAt := now)
    else row
  }

  function ExpireLeases(rows: seq<CommandRow>, cutoff: int, now: int): (r: seq<CommandRow>)
    ensures |r| == |rows|
    ensures forall i | 0 <= i < |rows| :: r[i] == Expired(rows[i], cutoff, now)
  {
    seq(|rows|, i requires 0 <= i < |rows| => Expired(rows[i], cutoff, now))
  }

  predicate Ready(row: CommandRow, now: int) {
    Signed(row.kind) && (row.status == Pending || row.status == Unknown) && row.availableAt <= now
  }

  predicate Ahead(a: CommandRow, b: CommandRow) {
    a.priority < b.priority || (a.priority == b.priority && a.createdAt < b.createdAt)
  }

  /** i is a ready, unlocked row that no other such row precedes in (priority, created_at) order. */
  predicate Claimable(rows: seq<CommandRow>, i: nat, now: int, busy: set<nat>) {
    && i < |rows| && Ready(rows[i], now) && rows[i].id !in busy
    && forall j | 0 <= j < |rows| && Ready(rows[j], now) && rows[j].id !in busy :: !Ahead(rows[j], rows[i])
  }

  function Leased(row: CommandRow, worker: string, now: int): CommandRow {
    row.(status := Processing, lockedAt := Some(now), lockedBy := Some(worker), attempts := row.attempts + 1)
  }

  function HandoutOf(row: CommandRow): Handout {
    Handout(row.id, row.kind, row.attempts + 1, row.status == Unknown)
  }

  /** What one claim transaction may do: expire leases, then lease one claimable row if there is any. */
  ghost predicate ClaimStep(
    before: seq<CommandRow>, after: seq<CommandRow>, out: Option<Handout>,
    worker: string, now: int, lease: int, busy: set<nat>)
  {
    var rows := ExpireLeases(before, now - lease, now);
    match out
    case None => after == rows && forall i: nat :: !Claimable(rows, i, now, busy)
    case Some(h) =>
      exists i: nat ::
        && Claimable(rows, i, now, busy)
        && h == HandoutOf(rows[i])
        && after == rows[i := Leased(rows[i], worker, now)]
  }

  function Deferred(row: CommandRow, now: int, recheck: int): CommandRow {
    row.(status := Unknown, lockedAt := None, lockedBy := None, availableAt := now + recheck)
  }

  /** An UPDATE by command id; a missing id changes nothing. */
  function DeferUnknown(rows: seq<CommandRow>, id: nat, now: int, recheck: int): seq<CommandRow> {
    match UpdateTarget(rows, id)
    case None => rows
    case Some(i) => rows[i := Deferred(rows[i], now, recheck)]
  }

  function UpdateTarget(rows: seq<CommandRow>, id: nat): (r: Option<nat>)
    ensures r.Some? ==> r.value < |rows| && rows[r.value].id == id
    ensures r.None? ==> forall i | 0 <= i < |rows| :: rows[i].id != id
  {
    if rows == [] then None
    else if rows[|rows| - 1].id == id then Some(|rows| - 1)
    else UpdateTarget(rows[..|rows| - 1], id)
  }

  /** The command update of a state transition: new status, lease cleared. */
  function Settle(rows: seq<CommandRow>, id: nat, status: CommandStatus): seq<CommandRow> {
    match UpdateTarget(rows, id)
    case None => rows
    case Some(i) => rows[i := rows[i].(status := status, lockedAt := None, lockedBy := None)]
  }

  // --------------------------------------------------------------- insert

  predicate Conflicts(rows: seq<CommandRow>, row: CommandRow) {
    exists i | 0 <= i < |rows| :: rows[i].id == row.id || KeyTaken(rows[i], row)
  }

  predicate KeyTaken(a: CommandRow, b: CommandRow) { a.actor == b.actor && a.key == b.key }

  /** A plain INSERT: a unique violation aborts the surrounding transaction. */
  function InsertCommand(rows: seq<CommandRow>, row: CommandRow): Option<seq<CommandRow>> {
    if Conflicts(rows, row) then None else Some(rows + [row])
  }

  /** INSERT ... ON CONFLICT (actor_id, idempotency_key) DO NOTHING. */
  function InsertOnce(rows: seq<CommandRow>, row: CommandRow): Option<seq<CommandRow>> {
    if exists i | 0 <= i < |rows| :: KeyTaken(rows[i], row) then Some(rows) else InsertCommand(rows, row)
  }

  function NewCommand(
    id: nat, kind: CommandKind, actor: string, key: string, status: CommandStatus, now: int): CommandRow
  {
    CommandRow(id, kind, actor, key, status, 100, now, now, None, None, 0)
  }

  // ---------------------------------------------------------- the queue

  class Queue {
    var rows: seq<CommandRow>
    const leaseSeconds: int
    const recheckSeconds: int

    constructor (lease: int, recheck: int)
      ensures rows == [] && leaseSeconds == lease && recheckSeconds == recheck
    {
      rows, leaseSeconds, recheckSeconds := [], lease, recheck;
    }

    /** Reclassify expired leases, row by row. */
    method ExpireAll(now: int)
      modifies this
      ensures rows == ExpireLeases(old(rows), now - leaseSeconds, now)
    {
      ghost var expired := ExpireLeases(rows, now - leaseSeconds, now);
      var i := 0;
      while i < |rows|
        invariant 0 <= i <= |rows| == |expired|
        invariant forall j | 0 <= j < i :: rows[j] == expired[j]
        invariant forall j | i <= j < |rows| :: rows[j] == old(rows[j])
      {
        if LeaseExpired(rows[i], now - leaseSeconds) {
          var row := rows[i];
          rows := rows[i := row.(status := Unknown, lockedAt := None, lockedBy := None, availableAt := now)];
        }
        i := i + 1;
      }
      assert rows == expired;
    }

    /** The first ready row in (priority, created_at) order that no other worker holds. */
    method SelectReady(now: int, busy: set<nat>) returns (best: Option<nat>)
      ensures best.None? ==> forall i: nat :: !Claimable(rows, i, now, busy)
      ensures best.Some? ==> Claimable(rows, best.value, now, busy)
    {
      best := None;
      for i := 0 to |rows|
        invariant best.None? ==> forall j | 0 <= j < i :: !(Ready(rows[j], now) && rows[j].id !in busy)
        invariant best.Some? ==>
          && best.value < i && Ready(rows[best.value], now) && rows[best.value].id !in busy
          && forall j | 0 <= j < i && Ready(rows[j], now) && rows[j].id !in busy :: !Ahead(rows[j], rows[best.value])
      {
        if Ready(rows[i], now) && rows[i].id !in busy && (best.None? || Ahead(rows[i], rows[best.value])) {
          best := Some(i);
        }
      }
    }

    method Claim(worker: string, now: int, busy: set<nat>) returns (out: Option<Handout>)
      modifies this
      ensures ClaimStep(old(rows), rows, out, worker, now, leaseSeconds, busy)
    {
      ExpireAll(now);
      var best := SelectReady(now, busy);
      if best.None? {
        return None;
      }
      var record := rows[best.value];
      rows := rows[best.value :=
        record.(status := Processing, lockedAt := Some(now), lockedBy := Some(worker), attempts := record.attempts + 1)];
      out := Some(Handout(record.id, record.kind, record.attempts + 1, record.status == Unknown));
    }

    method Defer(id: nat, now: int)
      modifies this
      ensures rows == DeferUnknown(old(rows), id, now, recheckSeconds)
    {
      var target := UpdateTarget(rows, id);
      if target.Some? {
        var row := rows[target.value];
        rows := rows[target.value :=
          row.(status := Unknown, lockedAt := None, lockedBy := None, availableAt := now + recheckSeconds)];
      }
    }
  }

  // ------------------------------------------------------------- the runs

  /** One transaction on the command table, by anyone, at any time. */
  datatype Step =
    | Insert(row: CommandRow)
    | InsertIdempotent(row: CommandRow)
    | SetStatus(id: nat, status: CommandStatus)
    | Defer(id: nat, now: int, recheck: int)
    | Claim(worker: string, now: int, lease: int, busy: set<nat>)

  /** New commands start unattempted; no transition sets a command back to pending. */
  predicate Permitted(step: Step) {
    match step
    case Insert(row) => row.attempts == 0
    case InsertIdempotent(row) => row.attempts == 0
    case SetStatus(_, status) => status != Pending
    case _ => true
  }

  ghost predicate Next(before: seq<CommandRow>, step: Step, after: seq<CommandRow>, out: Option<Handout>) {
    match step
    case Insert(row) => out == None && after == (if InsertCommand(before, row).Some? then InsertCommand(before, row).value else before)
    case InsertIdempotent(row) => out == None && after == (if InsertOnce(before, row).Some? then InsertOnce(before, row).value else before)
    case SetStatus(id, status) => out == None && after == Settle(before, id, status)
    case Defer(id, now, recheck) => out == None && after == DeferUnknown(before, id, now, recheck)
    case Claim(worker, now, lease, busy) => ClaimStep(before, after, out, worker, now, lease, busy)
  }

  /** A run: the table after each step, and the hand-outs so far. */
  ghost predicate IsRun(steps: seq<Step>, tables: seq<seq<CommandRow>>, history: seq<Option<Handout>>) {
    && |tables| == |steps| + 1 && |history| == |steps|
    && tables[0] == []
    && forall k | 0 <= k < |steps| :: Permitted(steps[k]) && Next(tables[k], steps[k], tables[k + 1], history[k])
  }

  ghost predicate UniqueIds(rows: seq<CommandRow>) {
    forall i, j | 0 <= i < j < |rows| :: rows[i].id != rows[j].id
  }

  ghost predicate UniqueKeys(rows: seq<CommandRow>) {
    forall i, j | 0 <= i < j < |rows| :: !KeyTaken(rows[i], rows[j])
  }

  ghost predicate PendingIsUnattempted(rows: seq<CommandRow>) {
    forall i | 0 <= i < |rows| :: rows[i].status == Pending ==> rows[i].attempts == 0
  }

  /** Every command handed out so far is on the table and counted as attempted. */
  ghost predicate HandedOutIsAttempted(rows: seq<CommandRow>, history: seq<Option<Handout>>) {
    forall k | 0 <= k < |history| && history[k].Some? ::
      exists i | 0 <= i < |rows| :: rows[i].id == history[k].value.id && rows[i].attempts > 0
  }

  ghost predicate Inv(rows: seq<CommandRow>, history: seq<Option<Handout>>) {
    GoodTable(rows) && HandedOutIsAttempted(rows, history)
  }

  /** Rows keep their position, identity and key, and never lose attempts. */
  ghost predicate Extends(before: seq<CommandRow>, after: seq<CommandRow>) {
    && |before| <= |after|
    && forall i | 0 <= i < |before| ::
         after[i].id == before[i].id && after[i].actor == before[i].actor && after[i].key == before[i].key
         && after[i].attempts >= before[i].attempts
  }

  ghost predicate GoodTable(rows: seq<CommandRow>) {
    UniqueIds(rows) && UniqueKeys(rows) && PendingIsUnattempted(rows)
  }

  lemma {:induction false} UpdateKeepsTable(rows: seq<CommandRow>, i: nat, row: CommandRow)
    requires GoodTable(rows) && i < |rows|
    requires row.id == rows[i].id && row.actor == rows[i].actor && row.key == rows[i].key
    requires row.attempts >= rows[i].attempts && (row.status == Pending ==> row.attempts == 0)
    ensures GoodTable(rows[i := row]) && Extends(rows, rows[i := row])
  {
    var after := rows[i := row];
    forall j, k | 0 <= j < k < |after| ensures after[j].id != after[k].id && !KeyTaken(after[j], after[k]) {
      assert rows[j].id != rows[k].id && !KeyTaken(rows[j], rows[k]);
    }
  }

  lemma {:induction false} InsertKeepsTable(rows: seq<CommandRow>, row: CommandRow)
    requires GoodTable(rows) && row.attempts == 0 && InsertCommand(rows, row).Some?
    ensures GoodTable(rows + [row]) && Extends(rows, rows + [row])
  {
  }

  lemma {:induction false} ExpireKeepsTable(rows: seq<CommandRow>, cutoff: int, now: int)
    requires GoodTable(rows)
    ensures GoodTable(ExpireLeases(rows, cutoff, now)) && Extends(rows, ExpireLeases(rows, cutoff, now))
  {
    var after := ExpireLeases(rows, cutoff, now);
    forall j, k | 0 <= j < k < |after| ensures after[j].id != after[k].id && !KeyTaken(after[j], after[k]) {
      assert rows[j].id != rows[k].id && !KeyTaken(rows[j], rows[k]);
    }
  }

  lemma {:induction false} ClaimKeepsTable(
    before: seq<CommandRow>, after: seq<CommandRow>, out: Option<Handout>,
    worker: string, now: int, lease: int, busy: set<nat>)
    requires GoodTable(before) && ClaimStep(before, after, out, worker, now, lease, busy)
    ensures GoodTable(after) && Extends(before, after)
    ensures out.Some? ==> exists i | 0 <= i < |before| ::
      && before[i].id == out.value.id && after[i].attempts > 0
      && (!out.value.requiresResolution ==> before[i].attempts == 0)
  {
    hide GoodTable, ExpireLeases;
    var rows := ExpireLeases(before, now - lease, now);
    ExpireKeepsTable(before, now - lease, now);
    if out.Some? {
      var i: nat :| Claimable(rows, i, now, busy) && out.value == HandoutOf(rows[i])
                    && after == rows[i := Leased(rows[i], worker, now)];
      UpdateKeepsTable(rows, i, Leased(rows[i], worker, now));
      if rows[i].status == Pending { PendingIsNew(rows, i); }
      assert before[i].id == out.value.id && after[i].attempts > 0;
      assert out.value.requiresResolution || before[i].attempts == 0;
    }
  }

  lemma {:induction false} PendingIsNew(rows: seq<CommandRow>, i: nat)
    requires GoodTable(rows) && i < |rows| && rows[i].status == Pending
    ensures rows[i].attempts == 0
  {
  }

  lemma {:induction false} StepKeepsTable(before: seq<CommandRow>, step: Step, after: seq<CommandRow>, out: Option<Handout>)
    requires Permitted(step) && Next(before, step, after, out) && GoodTable(before)
    ensures GoodTable(after) && Extends(before, after)
    ensures out.Some? ==> exists i | 0 <= i < |before| ::
      && before[i].id == out.value.id && after[i].attempts > 0
      && (!out.value.requiresResolution ==> before[i].attempts == 0)
  {
    match step
    case Insert(row) =>
      if InsertCommand(before, row).Some? { InsertKeepsTable(before, row); }
    case InsertIdempotent(row) =>
      if InsertCommand(before, row).Some? { InsertKeepsTable(before, row); }
    case SetStatus(id, status) =>
      var t := UpdateTarget(before, id);
      if t.Some? {
        UpdateKeepsTable(before, t.value, before[t.value].(status := status, lockedAt := None, lockedBy := None));
      }
    case Defer(id, now, recheck) =>
      var t := UpdateTarget(before, id);
      if t.Some? { UpdateKeepsTable(before, t.value, Deferred(before[t.value], now, recheck)); }
    case Claim(worker, now, lease, busy) =>
      ClaimKeepsTable(before, after, out, worker, now, lease, busy);
  }

  lemma {:induction false} StepKeepsInv(
    before: seq<CommandRow>, step: Step, after: seq<CommandRow>, out: Option<Handout>, history: seq<Option<Handout>>)
    requires Permitted(step) && Next(before, step, after, out) && Inv(before, history)
    ensures Inv(after, history + [out])
  {
    StepKeepsTable(before, step, after, out);
    forall k | 0 <= k < |history + [out]| && (history + [out])[k].Some?
      ensures exists i | 0 <= i < |after| :: after[i].id == (history + [out])[k].value.id && after[i].attempts > 0
    {
      if k < |history| {
        var i :| 0 <= i < |before| && before[i].id == history[k].value.id && before[i].attempts > 0;
        assert after[i].id == history[k].value.id;
      } else {
        var i :| 0 <= i < |before| && before[i].id == out.value.id && after[i].attempts > 0;
        assert after[i].id == out.value.id;
      }
    }
  }

  lemma {:induction false} RunKeepsInv(
    steps: seq<Step>, tables: seq<seq<CommandRow>>, history: seq<Option<Handout>>, n: nat)
    requires IsRun(steps, tables, history) && n <= |steps|
    ensures Inv(tables[n], history[..n])
  {
    if n > 0 {
      RunKeepsInv(steps, tables, history, n - 1);
      StepKeepsInv(tables[n - 1], steps[n - 1], tables[n], history[n - 1], history[..n - 1]);
      assert history[..n] == history[..n - 1] + [history[n - 1]];
    }
  }

  /**
   At most one blind send per command: in any run, once a command has been handed out, every
   later hand-out of it asks for resolution instead.
   */
  lemma {:induction false} OnlyFirstHandoutIsBlind(
    steps: seq<Step>, tables: seq<seq<CommandRow>>, history: seq<Option<Handout>>, j: nat, k: nat)
    requires IsRun(steps, tables, history) && j < k < |history|
    requires history[j].Some? && history[k].Some? && history[j].value.id == history[k].value.id
    ensures history[k].value.requiresResolution
  {
    RunKeepsInv(steps, tables, history, k);
    StepKeepsTable(tables[k], steps[k], tables[k + 1], history[k]);
    assert history[..k][j] == history[j];
    var a :| 0 <= a < |tables[k]| && tables[k][a].id == history[j].value.id && tables[k][a].attempts > 0;
    var b :| 0 <= b < |tables[k]| && tables[k][b].id == history[k].value.id
             && (!history[k].value.requiresResolution ==> tables[k][b].attempts == 0);
    assert a == b;
  }

  /** Repeated idempotent inserts under one actor and key leave exactly one command in any run. */
  lemma {:induction false} OneCommandPerKey(
    steps: seq<Step>, tables: seq<seq<CommandRow>>, history: seq<Option<Handout>>, n: nat, i: nat, j: nat)
    requires IsRun(steps, tables, history) && n <= |steps| && i < |tables[n]| && j < |tables[n]|
    requires KeyTaken(tables[n][i], tables[n][j])
    ensures i == j
  {
    RunKeepsInv(steps, tables, history, n);
    assert KeyTaken(tables[n][j], tables[n][i]);
    assert UniqueKeys(tables[n]);
  }

  /**
   The assumption on transitions is exact: from any reachable table, setting a signed command back to
   pending lets a later claim hand it out blind again, whatever its number of attempts.
   */
  lemma {:induction false} PendingAgainIsBlindAgain(rows: seq<CommandRow>, i: nat, now: int, lease: int, worker: string)
    requires UniqueIds(rows) && i < |rows| && Signed(rows[i].kind) && rows[i].availableAt <= now
    ensures var again := Settle(rows, rows[i].id, Pending);
      var busy := set j | 0 <= j < |rows| && j != i :: rows[j].id;
      exists after, out ::
        ClaimStep(again, after, Some(out), worker, now, lease, busy)
        && out == Handout(rows[i].id, rows[i].kind, rows[i].attempts + 1, false)
  {
    var again := Settle(rows, rows[i].id, Pending);
    var busy := set j | 0 <= j < |rows| && j != i :: rows[j].id;
    var expired := ExpireLeases(again, now - lease, now);
    assert UpdateTarget(rows, rows[i].id) == Some(i);
    assert expired[i] == again[i];
    assert Claimable(expired, i, now, busy) by {
      forall j | 0 <= j < |expired| && expired[j].id !in busy ensures j == i {
        assert again[j].id == rows[j].id;
      }
    }
    var after := expired[i := Leased(expired[i], worker, now)];
    assert ClaimStep(again, after, Some(HandoutOf(expired[i])), worker, now, lease, busy);
  }
}
