/**
 The transactional outbox: committed events claimed under a lease, published, then marked, and read
 back in pages for replay. Rows are listed in the order they were committed, which is also the order
 of their sequence numbers; sequence numbers may have gaps.
 */
module Outbox {
  import opened Arith
  import opened Options

  datatype Event = Event(sequence: int, body: string)

  datatype Lease = Lease(at: int, worker: string)

  datatype Row = Row(event: Event, claim: Option<Lease>, published: bool, attempts: nat)

  predicate Ascending(events: seq<Event>) {
    forall i, j | 0 <= i < j < |events| :: events[i].sequence < events[j].sequence
  }

  function Events(rows: seq<Row>): (r: seq<Event>)
    ensures |r| == |rows| && forall i | 0 <= i < |rows| :: r[i] == rows[i].event
  {
    seq(|rows|, i requires 0 <= i < |rows| => rows[i].event)
  }

  /** Sequence numbers are positive and strictly increasing: the primary key in commit order. */
  predicate InOrder(events: seq<Event>) {
    Ascending(events) && forall e <- events :: e.sequence > 0
  }

  // -------------------------------------------------------------- claiming

  predicate Claimable(r: Row, cutoff: int) {
    !r.published && (r.claim.None? || r.claim.value.at < cutoff)
  }

  /** The row can be claimed, and no other transaction has it locked. */
  predicate Selectable(r: Row, cutoff: int, busy: set<int>) {
    Claimable(r, cutoff) && r.event.sequence !in busy
  }

  function ClaimableEvents(rows: seq<Row>, cutoff: int, busy: set<int>): seq<Event> {
    if rows == [] then [] else
    var n := |rows| - 1;
    ClaimableEvents(rows[..n], cutoff, busy) + (if Selectable(rows[n], cutoff, busy) then [rows[n].event] else [])
  }

  function Limit<T>(s: seq<T>, limit: nat): seq<T> { if |s| <= limit then s else s[..limit] }

  function Claimed(r: Row, batch: seq<Event>, now: int, worker: string): Row {
    if exists e <- batch :: e.sequence == r.event.sequence
    then r.(claim := Some(Lease(now, worker)), attempts := r.attempts + 1) else r
  }

  /** The rows after claiming, and the batch handed to the worker; rows locked by other claimers are skipped. */
  function ClaimBatch(rows: seq<Row>, lease: int, now: int, worker: string, limit: nat, busy: set<int>)
    : (r: (seq<Row>, seq<Event>))
    ensures |r.0| == |rows|
  {
    var batch := Limit(ClaimableEvents(rows, now - lease, busy), limit);
    (seq(|rows|, i requires 0 <= i < |rows| => Claimed(rows[i], batch, now, worker)), batch)
  }

  predicate HeldBy(r: Row, sequence: int, worker: string) {
    r.event.sequence == sequence && !r.published && r.claim.Some? && r.claim.value.worker == worker
  }

  function Marked(r: Row, sequence: int, worker: string): Row {
    if HeldBy(r, sequence, worker) then r.(published := true, claim := None) else r
  }

  function MarkPublished(rows: seq<Row>, sequence: int, worker: string): (r: seq<Row>)
    ensures |r| == |rows| && forall i | 0 <= i < |rows| :: r[i] == Marked(rows[i], sequence, worker)
  {
    seq(|rows|, i requires 0 <= i < |rows| => Marked(rows[i], sequence, worker))
  }

  function ReleaseClaim(rows: seq<Row>, sequence: int, worker: string): (r: seq<Row>)
    ensures |r| == |rows|
  {
    seq(|rows|, i requires 0 <= i < |rows| =>
      if HeldBy(rows[i], sequence, worker) then rows[i].(claim := None) else rows[i])
  }

  // --------------------------------------------------------------- reading

  /** The events strictly after one sequence up to another, in order. */
  function Between(events: seq<Event>, after: int, upTo: int): seq<Event> {
    if events == [] then [] else
    var n := |events| - 1;
    Between(events[..n], after, upTo) + (if after < events[n].sequence <= upTo then [events[n]] else [])
  }

  function ReadAfter(rows: seq<Row>, after: int, upTo: int, limit: nat): seq<Event> {
    Limit(Between(Events(rows), after, upTo), limit)
  }

  function Earliest(events: seq<Event>): Option<int> {
    if events == [] then None else
    match Earliest(events[1..])
    case None => Some(events[0].sequence)
    case Some(m) => Some(Min(events[0].sequence, m))
  }

  /** The greatest sequence, or 0 for an empty table. */
  function Latest(events: seq<Event>): int {
    if events == [] then 0 else Max(events[|events| - 1].sequence, Latest(events[..|events| - 1]))
  }

  lemma {:induction false} LatestBounds(events: seq<Event>)
    ensures Latest(events) >= 0 && forall e <- events :: e.sequence <= Latest(events)
    ensures Latest(events) == 0 || exists e <- events :: e.sequence == Latest(events)
  {
    if events != [] {
      LatestBounds(events[..|events| - 1]);
      assert events == events[..|events| - 1] + [events[|events| - 1]];
      assert events[|events| - 1] in events;
    }
  }

  /** The least sequence, or None for an empty table. */
  lemma {:induction false} EarliestBounds(events: seq<Event>)
    ensures Earliest(events).None? <==> events == []
    ensures events != [] ==>
      && (forall e <- events :: e.sequence >= Earliest(events).value)
      && exists e <- events :: e.sequence == Earliest(events).value
  {
    if events != [] {
      EarliestBounds(events[1..]);
      assert events == [events[0]] + events[1..];
      assert events[0] in events;
    }
  }

  lemma {:induction false} AscendingAppend(events: seq<Event>, e: Event)
    requires Ascending(events) && forall x <- events :: x.sequence < e.sequence
    ensures Ascending(events + [e])
  {
  }

  lemma {:induction false} LastIsGreatest(events: seq<Event>)
    requires events != [] && InOrder(events)
    ensures var front := events[..|events| - 1];
      InOrder(front) && forall x <- front :: x.sequence < events[|events| - 1].sequence
  {
  }

  lemma {:induction false} BetweenIs(events: seq<Event>, after: int, upTo: int)
    requires InOrder(events)
    ensures InOrder(Between(events, after, upTo))
    ensures forall e :: e in Between(events, after, upTo) <==> e in events && after < e.sequence <= upTo
  {
    if events != [] {
      var front, last := events[..|events| - 1], events[|events| - 1];
      LastIsGreatest(events);
      BetweenIs(front, after, upTo);
      assert events == front + [last];
      AscendingAppend(Between(front, after, upTo), last);
    }
  }

  /** A page ending at sequence m splits the read there. */
  lemma {:induction false} BetweenSplits(events: seq<Event>, after: int, m: int, upTo: int)
    requires InOrder(events) && after <= m <= upTo
    ensures Between(events, after, upTo) == Between(events, after, m) + Between(events, m, upTo)
  {
    if events != [] {
      var front, last := events[..|events| - 1], events[|events| - 1];
      LastIsGreatest(events);
      BetweenSplits(front, after, m, upTo);
      if last.sequence <= m { NothingAbove(front, m, upTo); }
    }
  }

  lemma {:induction false} NothingAbove(events: seq<Event>, m: int, upTo: int)
    requires forall e <- events :: e.sequence <= m
    ensures Between(events, m, upTo) == []
  {
    if events != [] { NothingAbove(events[..|events| - 1], m, upTo); }
  }

  /** Reading again from the last event of a page continues exactly after that page. */
  lemma {:induction false} PageContinues(events: seq<Event>, after: int, upTo: int, limit: nat)
    requires InOrder(events) && limit > 0 && Between(events, after, upTo) != []
    ensures var page := Limit(Between(events, after, upTo), limit);
      var m := page[|page| - 1].sequence;
      after < m <= upTo && Between(events, after, upTo) == page + Between(events, m, upTo)
  {
    hide Between, InOrder;
    var all := Between(events, after, upTo);
    var page := Limit(all, limit);
    var last := page[|page| - 1];
    BetweenIs(events, after, upTo);
    assert all[|page| - 1] == last && last in all;
    BetweenSplits(events, after, last.sequence, upTo);
    BetweenIs(events, after, last.sequence);
    BetweenIs(events, last.sequence, upTo);
    InOrderIsAscending(all);
    SplitAt(all, Between(events, after, last.sequence), Between(events, last.sequence, upTo), |page| - 1);
  }

  lemma {:induction false} InOrderIsAscending(events: seq<Event>)
    requires InOrder(events)
    ensures Ascending(events)
  {
  }

  lemma {:induction false} SplitAt(all: seq<Event>, a: seq<Event>, b: seq<Event>, k: nat)
    requires all == a + b && Ascending(all) && k < |all|
    requires (forall e <- a :: e.sequence <= all[k].sequence) && (forall e <- b :: e.sequence > all[k].sequence)
    ensures all[..k + 1] == a
  {
    assert all[k] in a + b;
    var i :| 0 <= i < |a| && a[i] == all[k];
    assert all[i] == all[k];
    assert i == k;
    assert |a| > 0 ==> all[|a| - 1] == a[|a| - 1] && a[|a| - 1] in a;
  }

  // ------------------------------------------------------- claims and leases

  lemma {:induction false} EventsFront(rows: seq<Row>)
    requires rows != []
    ensures Events(rows[..|rows| - 1]) == Events(rows)[..|rows| - 1]
  {
  }

  lemma {:induction false} ClaimableEventsInOrder(rows: seq<Row>, cutoff: int, busy: set<int>)
    requires InOrder(Events(rows))
    ensures InOrder(ClaimableEvents(rows, cutoff, busy))
    ensures forall e <- ClaimableEvents(rows, cutoff, busy) :: e in Events(rows)
  {
    if rows != [] {
      var n := |rows| - 1;
      EventsFront(rows);
      LastIsGreatest(Events(rows));
      ClaimableEventsInOrder(rows[..n], cutoff, busy);
      assert Events(rows) == Events(rows[..n]) + [rows[n].event];
      AscendingAppend(ClaimableEvents(rows[..n], cutoff, busy), rows[n].event);
    }
  }

  /** A claim considers exactly the claimable unlocked rows, in sequence order. */
  lemma {:induction false} ClaimableEventsAre(rows: seq<Row>, cutoff: int, busy: set<int>)
    requires InOrder(Events(rows))
    ensures InOrder(ClaimableEvents(rows, cutoff, busy))
    ensures forall e <- ClaimableEvents(rows, cutoff, busy) :: e in Events(rows)
    ensures forall i | 0 <= i < |rows| :: rows[i].event in ClaimableEvents(rows, cutoff, busy) <==> Selectable(rows[i], cutoff, busy)
  {
    ClaimableEventsInOrder(rows, cutoff, busy);
    if rows != [] {
      var n := |rows| - 1;
      EventsFront(rows);
      LastIsGreatest(Events(rows));
      ClaimableEventsAre(rows[..n], cutoff, busy);
      hide InOrder, Selectable;
      forall i | 0 <= i < |rows|
        ensures rows[i].event in ClaimableEvents(rows, cutoff, busy) <==> Selectable(rows[i], cutoff, busy)
      {
        if i < n {
          assert rows[i].event == Events(rows)[..n][i] && rows[..n][i] == rows[i];
          assert rows[i].event in Events(rows)[..n];
        } else {
          assert rows[n].event !in ClaimableEvents(rows[..n], cutoff, busy);
        }
      }
    }
  }

  /** Not yet published, and never claimed or claimed longer ago than the lease. */
  predicate Due(r: Row, now: int, lease: int) {
    !r.published && (if r.claim.Some? then now - r.claim.value.at > lease else true)
  }

  /** A claim hands out every due and unlocked row, unless the limit is taken by earlier sequences. */
  lemma {:induction false} DueIsClaimed(
    rows: seq<Row>, lease: int, now: int, worker: string, limit: nat, busy: set<int>, i: nat)
    requires InOrder(Events(rows)) && i < |rows|
    ensures var (after, batch) := ClaimBatch(rows, lease, now, worker, limit, busy);
      && |batch| <= limit
      && (rows[i].event in batch ==> Due(rows[i], now, lease) && rows[i].event.sequence !in busy)
      && (Due(rows[i], now, lease) && rows[i].event.sequence !in busy && rows[i].event !in batch ==>
            |batch| == limit && forall e <- batch :: e.sequence < rows[i].event.sequence)
      && after[i] == if rows[i].event in batch
                     then rows[i].(claim := Some(Lease(now, worker)), attempts := rows[i].attempts + 1) else rows[i]
  {
    hide ClaimableEvents, InOrder;
    var all := ClaimableEvents(rows, now - lease, busy);
    var batch := Limit(all, limit);
    ClaimableEventsAre(rows, now - lease, busy);
    LimitIsPrefix(all, limit, rows[i].event);
    SameSequenceSameEvent(rows, batch, i);
  }

  lemma {:induction false} LimitIsPrefix(events: seq<Event>, limit: nat, e: Event)
    requires InOrder(events)
    ensures var batch := Limit(events, limit);
      && |batch| <= limit && (forall x <- batch :: x in events)
      && (e in events && e !in batch ==> |batch| == limit && forall x <- batch :: x.sequence < e.sequence)
  {
    if e in events && e !in Limit(events, limit) {
      var k :| 0 <= k < |events| && events[k] == e;
    }
  }

  lemma {:induction false} SameSequenceSameEvent(rows: seq<Row>, batch: seq<Event>, i: nat)
    requires InOrder(Events(rows)) && i < |rows| && forall e <- batch :: e in Events(rows)
    ensures (exists e <- batch :: e.sequence == rows[i].event.sequence) <==> rows[i].event in batch
  {
    forall e <- batch | e.sequence == rows[i].event.sequence ensures e == rows[i].event {
      var k :| 0 <= k < |rows| && Events(rows)[k] == e;
      assert Events(rows)[i] == rows[i].event;
    }
  }

  datatype Step =
    | Append(event: Event)
    | DoClaim(now: int, worker: string, limit: nat, busy: set<int>)
    | DoMark(sequence: int, worker: string)
    | DoRelease(sequence: int, worker: string)

  function Apply(rows: seq<Row>, s: Step, lease: int): seq<Row> {
    match s
    case Append(e) => if e.sequence > Latest(Events(rows)) then rows + [Row(e, None, false, 0)] else rows
    case DoClaim(now, worker, limit, busy) => ClaimBatch(rows, lease, now, worker, limit, busy).0
    case DoMark(sequence, worker) => MarkPublished(rows, sequence, worker)
    case DoRelease(sequence, worker) => ReleaseClaim(rows, sequence, worker)
  }

  function Run(rows: seq<Row>, steps: seq<Step>, lease: int): seq<Row> {
    if steps == [] then rows else Apply(Run(rows, steps[..|steps| - 1], lease), steps[|steps| - 1], lease)
  }

  /** The row is published, or held by the worker under a lease that lasts at least until then. */
  predicate Guarded(r: Row, worker: string, until: int, lease: int) {
    r.published || (r.claim.Some? && r.claim.value.worker == worker && r.claim.value.at + lease >= until)
  }

  /** Steps that respect a worker's lease on a sequence: no claim after it runs out, no release by the worker. */
  predicate RespectsLease(s: Step, sequence: int, worker: string, until: int) {
    && (s.DoClaim? ==> s.now <= until)
    && !(s.DoRelease? && s.sequence == sequence && s.worker == worker)
  }

  lemma {:induction false} StepKeepsGuard(rows: seq<Row>, s: Step, lease: int, i: nat, worker: string, until: int)
    requires InOrder(Events(rows)) && i < |rows| && Guarded(rows[i], worker, until, lease)
    requires RespectsLease(s, rows[i].event.sequence, worker, until)
    ensures var after := Apply(rows, s, lease);
      && i < |after| && after[i].event == rows[i].event && Guarded(after[i], worker, until, lease)
    ensures s.DoClaim? ==> rows[i].event !in ClaimBatch(rows, lease, s.now, s.worker, s.limit, s.busy).1
  {
    if s.DoClaim? {
      ClaimableEventsAre(rows, s.now - lease, s.busy);
      var batch := ClaimBatch(rows, lease, s.now, s.worker, s.limit, s.busy).1;
      forall e <- batch ensures e.sequence != rows[i].event.sequence {
        assert e in ClaimableEvents(rows, s.now - lease, s.busy);
        var j :| 0 <= j < |rows| && Events(rows)[j] == e;
        assert rows[j].event in ClaimableEvents(rows, s.now - lease, s.busy);
      }
    }
  }

  lemma {:induction false} StepKeepsOrder(rows: seq<Row>, s: Step, lease: int)
    requires InOrder(Events(rows))
    ensures InOrder(Events(Apply(rows, s, lease)))
  {
    var after := Apply(rows, s, lease);
    if s.Append? {
      LatestBounds(Events(rows));
      if s.event.sequence > Latest(Events(rows)) {
        assert Events(after) == Events(rows) + [s.event];
        AscendingAppend(Events(rows), s.event);
      }
    } else {
      assert Events(after) == Events(rows);
    }
  }

  /**
   Leases exclude and publication is final: once a row is published, or while a worker's lease on it
   lasts, no sequence of appends, claims, marks and foreign releases hands it out again.
   */
  lemma {:induction false} LeaseIsExclusive(
    rows: seq<Row>, steps: seq<Step>, lease: int, i: nat, worker: string, until: int)
    requires InOrder(Events(rows)) && i < |rows| && Guarded(rows[i], worker, until, lease)
    requires forall s <- steps :: RespectsLease(s, rows[i].event.sequence, worker, until)
    ensures var after := Run(rows, steps, lease);
      && InOrder(Events(after)) && i < |after| && after[i].event == rows[i].event
      && Guarded(after[i], worker, until, lease)
      && forall now, other, limit, busy :: now <= until ==>
           rows[i].event !in ClaimBatch(after, lease, now, other, limit, busy).1
  {
    if steps != [] {
      var front := steps[..|steps| - 1];
      LeaseIsExclusive(rows, front, lease, i, worker, until);
      var before := Run(rows, front, lease);
      StepKeepsGuard(before, steps[|steps| - 1], lease, i, worker, until);
      StepKeepsOrder(before, steps[|steps| - 1], lease);
    }
    var after := Run(rows, steps, lease);
    forall now, other, limit, busy | now <= until
      ensures rows[i].event !in ClaimBatch(after, lease, now, other, limit, busy).1
    {
      StepKeepsGuard(after, DoClaim(now, other, limit, busy), lease, i, worker, until);
    }
  }

  /** Claiming hands out the smallest claimable sequences that are not locked, and leases exactly those rows. */
  lemma {:induction false} ClaimGuardsItsBatch(
    rows: seq<Row>, lease: int, now: int, worker: string, limit: nat, busy: set<int>, i: nat)
    requires InOrder(Events(rows)) && i < |rows|
    ensures var (after, batch) := ClaimBatch(rows, lease, now, worker, limit, busy);
      && InOrder(batch) && |batch| <= limit
      && (rows[i].event in batch ==> Selectable(rows[i], now - lease, busy) && Guarded(after[i], worker, now + lease, lease))
      && (rows[i].event !in batch ==> after[i] == rows[i])
      && (Selectable(rows[i], now - lease, busy) && rows[i].event !in batch ==>
            |batch| == limit && forall e <- batch :: e.sequence < rows[i].event.sequence)
  {
    ClaimableEventsAre(rows, now - lease, busy);
    var all := ClaimableEvents(rows, now - lease, busy);
    var batch := Limit(all, limit);
    assert InOrder(batch);
    forall e <- batch | e.sequence == rows[i].event.sequence ensures e == rows[i].event {
      assert e in all;
      var j :| 0 <= j < |rows| && Events(rows)[j] == e;
    }
    if rows[i].event in all && rows[i].event !in batch {
      var k :| 0 <= k < |all| && all[k] == rows[i].event;
      assert k >= limit;
    }
  }

  lemma {:induction false} SequencesAreUnique(rows: seq<Row>, i: int, j: nat)
    requires InOrder(Events(rows)) && j < |rows|
    ensures 0 <= i < |rows| && rows[i].event.sequence == rows[j].event.sequence ==> i == j
  {
    assert Events(rows)[j] == rows[j].event;
    assert 0 <= i < |rows| ==> Events(rows)[i] == rows[i].event;
  }

  /**
   A mark or a release by one worker touches no row but the one with that sequence, and only if that worker
   holds it; once marked, a row is published for good and a later mark or release by anyone changes nothing.
   */
  lemma {:induction false} OnlyTheHolderMarks(rows: seq<Row>, sequence: int, worker: string, i: nat)
    requires InOrder(Events(rows)) && i < |rows|
    ensures MarkPublished(rows, sequence, worker)[i] != rows[i] || ReleaseClaim(rows, sequence, worker)[i] != rows[i]
      ==> rows[i].event.sequence == sequence && !rows[i].published
          && rows[i].claim.Some? && rows[i].claim.value.worker == worker
    ensures var marked := MarkPublished(rows, sequence, worker);
      && (forall j | 0 <= j < |rows| && j != i && marked[i] != rows[i] :: marked[j] == rows[j])
      && (marked[i] != rows[i] ==> forall other ::
            MarkPublished(marked, sequence, other) == marked && ReleaseClaim(marked, sequence, other) == marked)
  {
    var marked := MarkPublished(rows, sequence, worker);
    forall j | 0 <= j < |rows| && j != i && rows[j].event.sequence == rows[i].event.sequence ensures false {
      SequencesAreUnique(rows, j, i);
    }
    if marked[i] != rows[i] {
      forall other ensures
        MarkPublished(marked, sequence, other) == marked && ReleaseClaim(marked, sequence, other) == marked
      {
        forall j | 0 <= j < |rows| ensures !HeldBy(marked[j], sequence, other) {
          if j != i { SequencesAreUnique(rows, j, i); }
        }
      }
    }
  }

  /** What the holder's mark and release write: a mark settles the row, a release makes it due at once. */
  lemma {:induction false} HolderWrites(rows: seq<Row>, sequence: int, worker: string, i: nat, now: int, lease: int)
    requires i < |rows| && rows[i].event.sequence == sequence && !rows[i].published
    requires rows[i].claim.Some? && rows[i].claim.value.worker == worker
    ensures var marked, freed := MarkPublished(rows, sequence, worker), ReleaseClaim(rows, sequence, worker);
      && marked[i] == Row(rows[i].event, None, true, rows[i].attempts)
      && freed[i] == Row(rows[i].event, None, false, rows[i].attempts)
      && Due(freed[i], now, lease) && !Due(marked[i], now, lease)
  {
  }

  /** The update of one claimed record. */
  function ClaimOne(rows: seq<Row>, sequence: int, now: int, worker: string): (r: seq<Row>)
    ensures |r| == |rows|
  {
    seq(|rows|, i requires 0 <= i < |rows| => Claimed(rows[i], [Event(sequence, "")], now, worker))
  }

  lemma {:induction false} ClaimedOneMore(r: Row, batch: seq<Event>, k: nat, now: int, worker: string)
    requires Ascending(batch) && k < |batch|
    ensures Claimed(Claimed(r, batch[..k], now, worker), [Event(batch[k].sequence, "")], now, worker)
            == Claimed(r, batch[..k + 1], now, worker)
  {
    assert batch[..k + 1] == batch[..k] + [batch[k]];
    forall e <- batch[..k] ensures e.sequence != batch[k].sequence {
      var j :| 0 <= j < k && batch[j] == e;
    }
    assert Event(batch[k].sequence, "") in [Event(batch[k].sequence, "")];
    assert batch[k] in batch[..k + 1];
  }

  class OutboxStore {
    var rows: seq<Row>
    const lease: int

    /** Select the batch, then lease its rows one by one. */
    method Claim(now: int, worker: string, limit: nat, busy: set<int>) returns (batch: seq<Event>)
      requires InOrder(Events(rows))
      modifies this
      ensures (rows, batch) == ClaimBatch(old(rows), lease, now, worker, limit, busy)
    {
      batch := Limit(ClaimableEvents(rows, now - lease, busy), limit);
      ClaimableEventsAre(rows, now - lease, busy);
      for k := 0 to |batch|
        invariant |rows| == |old(rows)|
        invariant forall i | 0 <= i < |rows| :: rows[i] == Claimed(old(rows)[i], batch[..k], now, worker)
      {
        ghost var before := rows;
        rows := ClaimOne(rows, batch[k].sequence, now, worker);
        forall i | 0 <= i < |rows| ensures rows[i] == Claimed(old(rows)[i], batch[..k + 1], now, worker) {
          ClaimedOneMore(old(rows)[i], batch, k, now, worker);
          assert before[i] == Claimed(old(rows)[i], batch[..k], now, worker);
        }
      }
      assert batch[..|batch|] == batch;
      assert rows == ClaimBatch(old(rows), lease, now, worker, limit, busy).0;
    }

    /** The conditional update, row by row; the answer is whether it affected one row. */
    method Publish(sequence: int, worker: string) returns (marked: bool)
      requires InOrder(Events(rows))
      modifies this
      ensures rows == MarkPublished(old(rows), sequence, worker)
      ensures marked ==> exists i | 0 <= i < |old(rows)| ::
        HeldBy(old(rows)[i], sequence, worker) && rows == old(rows)[i := Marked(old(rows)[i], sequence, worker)]
      ensures !marked ==> rows == old(rows) && forall r <- rows :: !HeldBy(r, sequence, worker)
    {
      var affected := 0;
      ghost var hit := 0;
      for k := 0 to |rows|
        invariant |rows| == |old(rows)| && 0 <= affected <= 1
        invariant forall i | k <= i < |rows| :: rows[i] == old(rows)[i]
        invariant forall i | 0 <= i < k :: rows[i] == Marked(old(rows)[i], sequence, worker)
        invariant affected == 0 ==> rows == old(rows) && forall i | 0 <= i < k :: !HeldBy(rows[i], sequence, worker)
        invariant affected == 1 ==> 0 <= hit < k
        invariant affected == 1 ==> HeldBy(old(rows)[hit], sequence, worker)
        invariant affected == 1 ==> rows == old(rows)[hit := Marked(old(rows)[hit], sequence, worker)]
      {
        if rows[k].event.sequence == sequence && !rows[k].published
           && rows[k].claim.Some? && rows[k].claim.value.worker == worker
        {
          SequencesAreUnique(old(rows), hit, k);
          rows := rows[k := rows[k].(published := true, claim := None)];
          affected, hit := affected + 1, k;
        }
      }
      marked := affected == 1;
    }

    method Release(sequence: int, worker: string)
      modifies this
      ensures rows == ReleaseClaim(old(rows), sequence, worker)
    {
      for k := 0 to |rows|
        invariant |rows| == |old(rows)|
        invariant forall i | k <= i < |rows| :: rows[i] == old(rows)[i]
        invariant forall i | 0 <= i < k :: rows[i] == ReleaseClaim(old(rows), sequence, worker)[i]
      {
        if rows[k].event.sequence == sequence && !rows[k].published
           && rows[k].claim.Some? && rows[k].claim.value.worker == worker
        {
          rows := rows[k := rows[k].(claim := None)];
        }
      }
    }
  }
}
