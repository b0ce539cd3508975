/**
 The durable event stream of one connection: paged replay of the outbox after Last-Event-ID (section
 9.2 of the WHATWG HTML standard), then live events from the broker, while other transactions commit
 and the relay claims, publishes and marks.
 */
module SseStream {
  import opened Options
  import opened Outbox
  import opened SseBroker

  const PAGE: nat := 500
  const RELAY: string := "sse-relay"
  const RELAY_BATCH: nat := 200
  const LEASE_SECONDS: int := 30

  // ---------------------------------------------------------------- replay

  datatype Plan = NoReplay | Resync(at: int) | Pages(latest: int)

  /** A client ahead of the log, or behind what is retained, must resynchronise. */
  function PlanReplay(events: seq<Event>, after: Option<int>): Plan {
    if after.None? then NoReplay else
    var latest, earliest := Latest(events), Earliest(events);
    if after.value > latest || (after.value > 0 && earliest.Some? && after.value < earliest.value - 1)
    then Resync(latest) else Pages(latest)
  }

  function ResyncEvent(at: int): Event { Event(at, "StreamResyncRequired") }

  /** The replay as one unpaged read. */
  function Replay(events: seq<Event>, after: Option<int>): seq<Event> {
    match PlanReplay(events, after)
    case NoReplay => []
    case Resync(at) => [ResyncEvent(at)]
    case Pages(latest) => Between(events, after.value, latest)
  }

  /** The client is ahead of the whole log, or the event after its Last-Event-ID is no longer retained. */
  ghost predicate MustResync(events: seq<Event>, after: int) {
    after > 0 &&
    ((forall e <- events :: e.sequence < after) || (events != [] && forall e <- events :: e.sequence > after + 1))
  }

  /** The greatest sequence of the log; 0 for an empty one. */
  ghost predicate Greatest(events: seq<Event>, at: int) {
    (forall e <- events :: e.sequence <= at) && if events == [] then at == 0 else exists e <- events :: e.sequence == at
  }

  /** What a replay sends: nothing, one notice, or exactly the events after Last-Event-ID in order. */
  ghost predicate IsReplay(events: seq<Event>, after: Option<int>, out: seq<Event>) {
    if after.None? then out == []
    else if MustResync(events, after.value) then exists at :: Greatest(events, at) && out == [ResyncEvent(at)]
    else InOrder(out) && forall e :: e in out <==> e in events && e.sequence > after.value
  }

  /** Which of the three plans is taken, in terms of the log alone. */
  lemma {:induction false} PlanIs(events: seq<Event>, after: Option<int>)
    requires InOrder(events)
    ensures after.None? ==> PlanReplay(events, after) == NoReplay
    ensures forall at | Greatest(events, at) && after.Some? ::
      PlanReplay(events, after) == if MustResync(events, after.value) then Resync(at) else Pages(at)
    ensures Greatest(events, Latest(events))
  {
    LatestBounds(events);
    EarliestBounds(events);
    if events != [] { assert events[0] in events; }
    hide Latest, Earliest;
    forall at | Greatest(events, at) ensures at == Latest(events) {}
  }

  lemma {:induction false} LaterCommitsAreOutside(events: seq<Event>, more: seq<Event>, after: int, upTo: int)
    requires forall e <- more :: e.sequence > upTo
    ensures Between(events + more, after, upTo) == Between(events, after, upTo)
  {
    if more == [] {
      assert events + more == events;
    } else {
      var front := more[..|more| - 1];
      assert (events + more)[..|events + more| - 1] == events + front;
      LaterCommitsAreOutside(events, front, after, upTo);
    }
  }

  /** Rows committed after the bounds were read lie beyond them. */
  lemma {:induction false} GrownTableReadsTheSame(before: seq<Event>, now: seq<Event>, after: int)
    requires InOrder(now) && before <= now
    ensures Between(now, after, Latest(before)) == Between(before, after, Latest(before))
  {
    var more := now[|before|..];
    assert now == before + more;
    LatestBounds(before);
    forall e <- more ensures e.sequence > Latest(before) {
      var j :| 0 <= j < |more| && more[j] == e;
      assert now[|before| + j] == e;
      if Latest(before) > 0 {
        var x :| x in before && x.sequence == Latest(before);
        var i :| 0 <= i < |before| && before[i] == x;
        assert now[i].sequence < now[|before| + j].sequence;
      } else {
        assert e in now;
      }
    }
    LaterCommitsAreOutside(before, more, after, Latest(before));
  }

  /**
   The paging loop reads each page from the table as it is at that moment; tables(k) is what the
   k-th query sees. It terminates and equals one unpaged read at the moment the bounds were read.
   */
  method DurableReplay(tables: nat -> seq<Row>, after: Option<int>) returns (out: seq<Event>)
    requires forall k: nat :: InOrder(Events(tables(k))) && Events(tables(0)) <= Events(tables(k))
    ensures out == Replay(Events(tables(0)), after)
    ensures IsReplay(Events(tables(0)), after, out)
  {
    hide IsReplay;
    var events := Events(tables(0));
    ReplayIsExact(events, after);
    match PlanReplay(events, after)
    case NoReplay => out := [];
    case Resync(at) => out := [ResyncEvent(at)];
    case Pages(latest) =>
      out := [];
      var cursor := after.value;
      var query := 1;
      while cursor < latest
        invariant cursor <= latest && query >= 1
        invariant out + Between(events, cursor, latest) == Between(events, after.value, latest)
        decreases latest - cursor
      {
        var page := ReadAfter(tables(query), cursor, latest, PAGE);
        GrownTableReadsTheSame(events, Events(tables(query)), cursor);
        if page == [] { break; }
        PageContinues(events, cursor, latest, PAGE);
        cursor := page[|page| - 1].sequence;
        out := out + page;
        query := query + 1;
      }
      EmptyRange(events, latest);
  }

  lemma {:induction false} ReplayIsExact(events: seq<Event>, after: Option<int>)
    requires InOrder(events)
    ensures IsReplay(events, after, Replay(events, after))
  {
    hide PlanReplay, Latest, MustResync, Between, InOrder;
    PlanIs(events, after);
    if after.Some? { BetweenIs(events, after.value, Latest(events)); }
  }

  lemma {:induction false} EmptyRange(events: seq<Event>, at: int)
    ensures Between(events, at, at) == []
  {
    if events != [] { EmptyRange(events[..|events| - 1], at); }
  }

  // ---------------------------------------------------------------- stream

  datatype Phase = Idle | Paging(cursor: int, latest: int, out: seq<Event>) | Waiting | Ended

  /**
   One connection's stream state, what it has emitted, whether it asked for a resync, and the greatest
   committed sequence when the replay last read its bounds (or, without a replay, at connect).
   */
  datatype Stream = Stream(
    first: bool, after: Option<int>, lastSent: int, pending: seq<Event>, phase: Phase,
    emitted: seq<Event>, resynced: bool, bound: int)

  /** The next pull will (still) start by replaying. */
  predicate NeedsReplay(s: Stream) {
    s.after.Some? && s.lastSent == 0 && s.pending == [] && s.phase == Idle
  }

  function StartPull(rows: seq<Row>, s: Stream): Stream {
    if s.first then s.(first := false)
    else if s.pending != [] || s.lastSent != 0 then s.(phase := Waiting)
    else match PlanReplay(Events(rows), s.after)
      case NoReplay => s.(phase := Waiting)
      case Resync(at) => s.(pending := [ResyncEvent(at)], resynced := true, phase := Waiting, bound := at)
      case Pages(latest) => s.(phase := Paging(s.after.value, latest, []), bound := latest)
  }

  function ReadPage(rows: seq<Row>, s: Stream): Stream
    requires s.phase.Paging?
  {
    var page := ReadAfter(rows, s.phase.cursor, s.phase.latest, PAGE);
    if s.phase.cursor >= s.phase.latest || page == [] then s.(pending := s.phase.out, phase := Waiting)
    else s.(phase := Paging(page[|page| - 1].sequence, s.phase.latest, s.phase.out + page))
  }

  /** Pending replay first, then the mailbox; an event at or below the last one sent is skipped. */
  function EmitNext(c: Client, s: Stream): (Client, Stream) {
    if s.pending != [] then
      (c, s.(lastSent := s.pending[0].sequence, pending := s.pending[1..], phase := Idle,
             emitted := s.emitted + [s.pending[0]]))
    else if c.box.items != [] then
      var e := c.box.items[0];
      (Consumed(c), s.(lastSent := e.sequence, phase := Idle,
                       emitted := if e.sequence <= s.lastSent then s.emitted else s.emitted + [e]))
    else (c, if c.box.closed then s.(phase := Ended) else s)
  }

  function PullMove(rows: seq<Row>, c: Client, s: Stream): (Client, Stream) {
    match s.phase
    case Idle => (c, StartPull(rows, s))
    case Paging(_, _, _) => (c, ReadPage(rows, s))
    case Waiting => EmitNext(c, s)
    case Ended => (c, s)
  }

  // ---------------------------------------------------------------- system

  datatype Sys = Sys(rows: seq<Row>, batch: seq<Event>, broker: Broker, streams: seq<Stream>)

  datatype Move =
    | Commit(gap: nat, body: string)
    | RelayClaim(now: int)
    | RelayPublish(marked: bool)
    | Connect(lastEventId: Option<nat>)
    | Pull(stream: nat)
    | ReplayFails(stream: nat)
    | Disconnect(stream: nat)

  function Boot(rows: seq<Row>): Sys { Sys(rows, [], EMPTY, []) }

  function NewStream(after: Option<int>, latest: int): Stream {
    Stream(true, after, 0, [], Idle, [], false, latest)
  }

  function SysStep(y: Sys, m: Move, sizes: Sizes): Sys {
    match m
    case Commit(gap, body) =>
      y.(rows := y.rows + [Row(Event(Latest(Events(y.rows)) + 1 + gap, body), None, false, 0)])
    case RelayClaim(now) =>
      if y.batch != [] then y else
      var (rows, batch) := ClaimBatch(y.rows, LEASE_SECONDS, now, RELAY, RELAY_BATCH, {});
      y.(rows := rows, batch := batch)
    case RelayPublish(marked) =>
      if y.batch == [] then y else
      y.(rows := if marked then MarkPublished(y.rows, y.batch[0].sequence, RELAY) else y.rows,
         batch := y.batch[1..],
         broker := Publish(y.broker, y.batch[0], sizes))
    case Connect(id) =>
      var after := if id.Some? then Some(id.value as int) else None;
      y.(broker := SseBroker.Step(y.broker, Subscribe(after), sizes),
         streams := y.streams + [NewStream(after, Latest(Events(y.rows)))])
    case Pull(i) =>
      if i < |y.streams| && i < |y.broker.clients| then
        var (c, s) := PullMove(y.rows, y.broker.clients[i], y.streams[i]);
        y.(broker := OnClient(y.broker, i, c), streams := y.streams[i := s])
      else y
    case ReplayFails(i) =>
      if i < |y.streams| && y.streams[i].phase.Paging? then
        y.(streams := y.streams[i := y.streams[i].(phase := Idle)])
      else y
    case Disconnect(i) =>
      if i < |y.streams| && i < |y.broker.clients| then
        y.(broker := SseBroker.Step(y.broker, Unsubscribe(i), sizes),
           streams := y.streams[i := y.streams[i].(phase := Ended)])
      else y
  }

  function SysRun(rows: seq<Row>, moves: seq<Move>, sizes: Sizes): Sys {
    if moves == [] then Boot(rows)
    else SysStep(SysRun(rows, moves[..|moves| - 1], sizes), moves[|moves| - 1], sizes)
  }

  // --------------------------------------------------------------- the relay

  /** Committed, and never claimed or published. */
  predicate Untouched(r: Row) { r.claim.None? && !r.published }

  ghost predicate AllBelow(events: seq<Event>, sequence: int) {
    forall x <- events :: x.sequence < sequence
  }

  ghost predicate WellFormed(events: seq<Event>, batch: seq<Event>, published: seq<Event>) {
    && InOrder(events) && InOrder(batch)
    && (forall e <- batch :: e in events)
    && (forall e <- published :: e in events)
  }

  /** A row committed after boot is published, in the batch, or untouched and beyond both. */
  ghost predicate Accounted(r: Row, batch: seq<Event>, published: seq<Event>, boot: int) {
    r.event.sequence > boot && r.event !in published && r.event !in batch ==>
      Untouched(r) && AllBelow(batch, r.event.sequence) && AllBelow(published, r.event.sequence)
  }

  ghost predicate BatchIsLater(batch: seq<Event>, published: seq<Event>, boot: int) {
    forall e <- batch :: e.sequence > boot && e !in published ==> AllBelow(published, e.sequence)
  }

  /**
   Rows committed after boot reach the broker in sequence order: whatever has not been published is
   beyond everything that has.
   */
  ghost predicate RelayInv(rows: seq<Row>, batch: seq<Event>, published: seq<Event>, boot: int) {
    && WellFormed(Events(rows), batch, published)
    && (forall i | 0 <= i < |rows| :: Accounted(rows[i], batch, published, boot))
    && BatchIsLater(batch, published, boot)
  }

  lemma {:induction false} CommitKeepsRelay(rows: seq<Row>, e: Event, batch: seq<Event>, published: seq<Event>, boot: int)
    requires RelayInv(rows, batch, published, boot) && e.sequence > Latest(Events(rows))
    ensures RelayInv(rows + [Row(e, None, false, 0)], batch, published, boot)
  {
    LatestBounds(Events(rows));
    var after := rows + [Row(e, None, false, 0)];
    assert Events(after) == Events(rows) + [e];
    AscendingAppend(Events(rows), e);
  }

  /** What the claim query promises: smallest claimable sequences first, all other rows unchanged. */
  ghost predicate ClaimsInOrder(rows: seq<Row>, after: seq<Row>, batch: seq<Event>) {
    && |after| == |rows| && Events(after) == Events(rows)
    && InOrder(batch) && (forall e <- batch :: e in Events(rows))
    && (forall i | 0 <= i < |rows| && rows[i].event !in batch ::
          after[i] == rows[i] && (Untouched(rows[i]) ==> AllBelow(batch, rows[i].event.sequence)))
  }

  lemma {:induction false} ClaimBatchClaimsInOrder(rows: seq<Row>, now: int)
    requires InOrder(Events(rows))
    ensures var (after, batch) := ClaimBatch(rows, LEASE_SECONDS, now, RELAY, RELAY_BATCH, {});
      ClaimsInOrder(rows, after, batch)
  {
    var (after, batch) := ClaimBatch(rows, LEASE_SECONDS, now, RELAY, RELAY_BATCH, {});
    assert Events(after) == Events(rows);
    ClaimableEventsAre(rows, now - LEASE_SECONDS, {});
    forall e <- batch ensures e in Events(rows) { assert e in ClaimableEvents(rows, now - LEASE_SECONDS, {}); }
    hide ClaimBatch, InOrder;
    forall i | 0 <= i < |rows| && rows[i].event !in batch
      ensures after[i] == rows[i] && (Untouched(rows[i]) ==> AllBelow(batch, rows[i].event.sequence))
    {
      ClaimGuardsItsBatch(rows, LEASE_SECONDS, now, RELAY, RELAY_BATCH, {}, i);
    }
  }

  lemma {:induction false} RowOf(rows: seq<Row>, e: Event) returns (i: nat)
    requires e in Events(rows)
    ensures i < |rows| && rows[i].event == e
  {
    i :| 0 <= i < |rows| && Events(rows)[i] == e;
  }

  lemma {:induction false} ClaimKeepsRelay(
    rows: seq<Row>, after: seq<Row>, batch: seq<Event>, published: seq<Event>, boot: int)
    requires RelayInv(rows, [], published, boot) && ClaimsInOrder(rows, after, batch)
    ensures RelayInv(after, batch, published, boot)
  {
    hide AllBelow, InOrder;
    forall i | 0 <= i < |rows| ensures Accounted(after[i], batch, published, boot) {
      assert Accounted(rows[i], [], published, boot);
      assert Events(after)[i] == Events(rows)[i];
    }
    forall e <- batch | e.sequence > boot && e !in published ensures AllBelow(published, e.sequence) {
      var i := RowOf(rows, e);
      assert Accounted(rows[i], [], published, boot);
    }
  }

  lemma {:induction false} HeadIsLeast(batch: seq<Event>)
    requires batch != [] && InOrder(batch)
    ensures InOrder(batch[1..])
    ensures forall x <- batch[1..] :: x in batch && batch[0].sequence < x.sequence
  {
    assert batch == [batch[0]] + batch[1..];
  }

  /** The rows with one sequence number touched, as marking does. */
  ghost predicate OnlyTouches(rows: seq<Row>, after: seq<Row>, e: Event) {
    && |after| == |rows|
    && forall i | 0 <= i < |rows| ::
         after[i].event == rows[i].event && (after[i] == rows[i] || rows[i].event == e)
  }

  lemma {:induction false} PublishKeepsRelay(
    rows: seq<Row>, after: seq<Row>, batch: seq<Event>, published: seq<Event>, more: seq<Event>, boot: int)
    requires RelayInv(rows, batch, published, boot) && batch != []
    requires OnlyTouches(rows, after, batch[0])
    requires more == published + [batch[0]] || (more == published && batch[0] in published)
    ensures RelayInv(after, batch[1..], more, boot) && Events(after) == Events(rows)
  {
    var e, rest := batch[0], batch[1..];
    assert Events(after) == Events(rows);
    HeadIsLeast(batch);
    assert batch == [e] + rest;
    hide InOrder;
    forall i | 0 <= i < |rows| ensures Accounted(after[i], rest, more, boot) {
      assert Accounted(rows[i], batch, published, boot);
    }
    assert BatchIsLater(rest, more, boot) by {
      forall x <- rest | x.sequence > boot && x !in more ensures AllBelow(more, x.sequence) {
        assert x in batch;
      }
    }
  }

  /** Nothing unpublished after boot is behind a published event. */
  lemma {:induction false} UnpublishedAreLater(rows: seq<Row>, batch: seq<Event>, published: seq<Event>, boot: int, e: Event)
    requires RelayInv(rows, batch, published, boot)
    requires e in Events(rows) && e.sequence > boot && e !in published
    ensures AllBelow(published, e.sequence)
    ensures e in batch || AllBelow(batch, e.sequence)
  {
    var i := RowOf(rows, e);
    assert Accounted(rows[i], batch, published, boot);
  }

  // ------------------------------------------------------------- one session

  /** The subscription is open and has not overflowed, and the client was not told to resynchronise. */
  predicate Connected(c: Client, s: Stream) {
    c.subscribed && !c.box.closed && !s.resynced && s.phase != Ended
  }

  /** Every event above the replay bound has gone to the mailbox if published, and will if not. */
  ghost predicate LiveIsTracked(events: seq<Event>, published: seq<Event>, c: Client, s: Stream) {
    forall e <- events | e.sequence > s.bound ::
      if e in published then e in c.box.items || (e in c.received && e in s.emitted) else e.sequence > c.cursor
  }

  /** Every event up to the replay bound has been replayed, is pending, or is still to be paged. */
  ghost predicate ReplayIsTracked(events: seq<Event>, s: Stream) {
    s.after.Some? ==>
      forall e <- events | s.after.value < e.sequence <= s.bound ::
        if s.phase.Paging? then e in s.phase.out || s.phase.cursor < e.sequence
        else e in s.emitted || e in s.pending
  }

  /** Nothing above the replay bound still queued is at or below the last event sent. */
  ghost predicate NothingToSkip(c: Client, s: Stream) {
    s.lastSent <= s.bound || (s.lastSent <= c.cursor && forall e <- c.box.items :: e.sequence > s.lastSent)
  }

  ghost predicate Tracked(events: seq<Event>, published: seq<Event>, c: Client, s: Stream) {
    && 0 <= s.bound && c.cursor <= Latest(events) && s.bound <= Latest(events)
    && LiveIsTracked(events, published, c, s)
    && ReplayIsTracked(events, s)
    && NothingToSkip(c, s)
    && (forall e <- s.pending :: 0 < e.sequence <= s.bound)
    && (s.phase.Paging? ==>
          && s.after.Some? && s.phase.latest == s.bound && s.phase.cursor <= s.bound
          && s.lastSent == 0 && s.pending == []
          && (forall e <- s.phase.out :: 0 < e.sequence <= s.bound))
  }

  ghost predicate SessionInv(
    events: seq<Event>, published: seq<Event>, c: Client, s: Stream, queue: nat, boot: int)
  {
    && ClientInv(c, queue)
    && (forall e <- Got(c) :: e in published)
    && c.floor == (if s.after.Some? then s.after.value else 0) && c.floor >= 0
    && (c.cursor == c.floor || c.cursor <= Latest(events))
    && s.bound >= boot
    && (Connected(c, s) && !NeedsReplay(s) ==> Tracked(events, published, c, s))
  }

  // The environment: commits and publications.

  lemma {:induction false} CommitKeepsSession(
    events: seq<Event>, e: Event, published: seq<Event>, c: Client, s: Stream, queue: nat, boot: int)
    requires SessionInv(events, published, c, s, queue, boot) && e.sequence > Latest(events)
    requires forall x <- published :: x in events
    ensures SessionInv(events + [e], published, c, s, queue, boot)
  {
    LatestBounds(events);
    assert (events + [e])[..|events|] == events;
  }

  lemma {:induction false} GotIsQueuedOrReceived(c: Client, e: Event)
    ensures e in Got(c) <==> e in c.received || e in c.box.items
  {
  }

  /** A new publication above the bound reaches an open mailbox; it leaves later events to come. */
  lemma {:induction false} PublishKeepsLive(
    events: seq<Event>, published: seq<Event>, c: Client, s: Stream, e: Event, queue: nat)
    requires ClientInv(c, queue) && c.subscribed && !c.box.closed
    requires LiveIsTracked(events, published, c, s)
    requires Ascending(events) && e in events
    requires e.sequence > s.bound && e !in published ==>
               forall x <- events | x.sequence > s.bound && x !in published && x != e :: x.sequence > e.sequence
    requires e.sequence > s.bound && e in published ==> e.sequence <= c.cursor
    requires !Deliver(c, e, queue).box.closed
    ensures LiveIsTracked(events, published + [e], Deliver(c, e, queue), s)
  {
    DeliverGets(c, e, queue);
    var after := Deliver(c, e, queue);
    if Got(after) == Got(c) + [e] { assert after.box.items == c.box.items + [e]; }
  }

  lemma {:induction false} PublishKeepsSession(
    events: seq<Event>, published: seq<Event>, c: Client, s: Stream, e: Event, queue: nat, boot: int)
    requires SessionInv(events, published, c, s, queue, boot) && InOrder(events) && e in events
    requires e.sequence > boot && e !in published ==>
               forall x <- events | x.sequence > boot && x !in published && x != e :: x.sequence > e.sequence
    ensures SessionInv(events, published + [e], Retain(Deliver(c, e, queue), queue), s, queue, boot)
  {
    var after := Retain(Deliver(c, e, queue), queue);
    OfferKeepsInv(c, e, queue);
    DeliverGets(c, e, queue);
    LatestBounds(events);
    if Connected(after, s) && !NeedsReplay(s) {
      assert Connected(c, s);
      GotIsQueuedOrReceived(c, e);
      PublishKeepsLive(events, published, c, s, e, queue);
    }
  }

  // The stream's own moves.

  lemma {:induction false} StartPullKeepsSession(
    rows: seq<Row>, published: seq<Event>, c: Client, s: Stream, queue: nat, boot: int)
    requires SessionInv(Events(rows), published, c, s, queue, boot) && Latest(Events(rows)) >= boot
    requires forall e <- published :: e in Events(rows)
    requires s.phase == Idle
    ensures SessionInv(Events(rows), published, c, StartPull(rows, s), queue, boot)
  {
    LatestBounds(Events(rows));
  }

  lemma {:induction false} ReadPageKeepsSession(
    rows: seq<Row>, published: seq<Event>, c: Client, s: Stream, queue: nat, boot: int)
    requires SessionInv(Events(rows), published, c, s, queue, boot) && InOrder(Events(rows))
    requires s.phase.Paging?
    ensures SessionInv(Events(rows), published, c, ReadPage(rows, s), queue, boot)
  {
    var events := Events(rows);
    var cursor, latest := s.phase.cursor, s.phase.latest;
    var page := ReadAfter(rows, cursor, latest, PAGE);
    if Connected(c, s) {
      BetweenIs(events, cursor, latest);
      if page != [] { PageIsTheRest(events, cursor, latest); }
    }
  }

  /** A page holds exactly the events from the cursor to its last one. */
  lemma {:induction false} PageIsTheRest(events: seq<Event>, cursor: int, latest: int)
    requires InOrder(events) && Limit(Between(events, cursor, latest), PAGE) != []
    ensures var page := Limit(Between(events, cursor, latest), PAGE);
      var m := page[|page| - 1].sequence;
      && cursor < m <= latest
      && (forall e <- page :: 0 < e.sequence <= latest)
      && (forall e <- events | cursor < e.sequence <= m :: e in page)
  {
    var page := Limit(Between(events, cursor, latest), PAGE);
    var m := page[|page| - 1].sequence;
    PageContinues(events, cursor, latest, PAGE);
    BetweenIs(events, cursor, latest);
    BetweenIs(events, m, latest);
    assert forall e <- page :: e in Between(events, cursor, latest);
    forall e <- events | cursor < e.sequence <= m ensures e in page {
      assert e in page + Between(events, m, latest);
    }
  }

  lemma {:induction false} EmitPendingKeepsSession(
    events: seq<Event>, published: seq<Event>, c: Client, s: Stream, queue: nat, boot: int)
    requires SessionInv(events, published, c, s, queue, boot)
    requires s.phase == Waiting && s.pending != []
    ensures SessionInv(events, published, c, EmitNext(c, s).1, queue, boot)
  {
    var after := EmitNext(c, s).1;
    assert s.pending == [s.pending[0]] + s.pending[1..];
    assert forall e :: e in after.emitted <==> e in s.emitted || e == s.pending[0];
  }

  /** An event taken from the mailbox is emitted unless the replay already covered it. */
  lemma {:induction false} EmitLiveKeepsSession(
    events: seq<Event>, published: seq<Event>, c: Client, s: Stream, queue: nat, boot: int)
    requires SessionInv(events, published, c, s, queue, boot) && InOrder(events)
    requires forall e <- published :: e in events
    requires s.phase == Waiting && s.pending == [] && c.box.items != []
    ensures var (c', s') := EmitNext(c, s); SessionInv(events, published, c', s', queue, boot)
  {
    hide ClientInv, Ascending, InOrder, LiveIsTracked, ReplayIsTracked;
    HeadOfQueue(c, queue);
    ConsumedKeepsClient(c, queue);
    GotIsQueuedOrReceived(c, c.box.items[0]);
    PublishedArePositive(events, published, c.box.items[0]);
    assert c.box.items == [c.box.items[0]] + c.box.items[1..];
    if Connected(c, s) { EmitLiveKeepsTracking(events, published, c, s); }
  }

  lemma {:induction false} ConsumedKeepsClient(c: Client, queue: nat)
    requires ClientInv(c, queue) && c.box.items != []
    ensures ClientInv(Consumed(c), queue)
  {
    HeadOfQueue(c, queue);
  }

  lemma {:induction false} EmitLiveKeepsTracking(events: seq<Event>, published: seq<Event>, c: Client, s: Stream)
    requires LiveIsTracked(events, published, c, s) && ReplayIsTracked(events, s) && NothingToSkip(c, s)
    requires s.phase == Waiting && s.pending == [] && c.box.items != []
    ensures var (c', s') := EmitNext(c, s); LiveIsTracked(events, published, c', s') && ReplayIsTracked(events, s')
  {
    assert c.box.items == [c.box.items[0]] + c.box.items[1..];
  }

  lemma {:induction false} PublishedArePositive(events: seq<Event>, published: seq<Event>, e: Event)
    requires InOrder(events) && (forall x <- published :: x in events) && e in published
    ensures e in events && e.sequence > 0
  {
  }

  /** Taking the head of the queue moves it to what was received; the rest is later. */
  lemma {:induction false} HeadOfQueue(c: Client, queue: nat)
    requires ClientInv(c, queue) && c.box.items != []
    ensures var c' := Consumed(c);
      && Got(c') == Got(c) && c'.box.items == c.box.items[1..] && c'.received == c.received + [c.box.items[0]]
      && c' == c.(box := c'.box, received := c'.received)
      && (forall x <- c'.box.items :: x.sequence > c.box.items[0].sequence)
      && c.floor < c.box.items[0].sequence <= c.cursor
  {
    var e, rest := c.box.items[0], c.box.items[1..];
    assert c.box.items == [e] + rest;
    assert e in Got(c);
    forall x <- rest ensures x.sequence > e.sequence {
      var j :| 0 <= j < |rest| && rest[j] == x;
      assert Got(c)[|c.received|] == e && Got(c)[|c.received| + 1 + j] == x;
    }
  }

  lemma {:induction false} PullKeepsSession(
    rows: seq<Row>, published: seq<Event>, c: Client, s: Stream, queue: nat, boot: int)
    requires SessionInv(Events(rows), published, c, s, queue, boot)
    requires InOrder(Events(rows)) && Latest(Events(rows)) >= boot
    requires forall e <- published :: e in Events(rows)
    ensures var (c', s') := PullMove(rows, c, s); SessionInv(Events(rows), published, c', s', queue, boot)
  {
    match s.phase
    case Idle => StartPullKeepsSession(rows, published, c, s, queue, boot);
    case Paging(_, _, _) => ReadPageKeepsSession(rows, published, c, s, queue, boot);
    case Waiting =>
      if s.pending != [] {
        EmitPendingKeepsSession(Events(rows), published, c, s, queue, boot);
      } else if c.box.items != [] {
        EmitLiveKeepsSession(Events(rows), published, c, s, queue, boot);
      }
    case Ended =>
  }

  // -------------------------------------------------------------- whole runs

  ghost predicate SysInv(y: Sys, sizes: Sizes, boot: int) {
    && RelayInv(y.rows, y.batch, y.broker.published, boot)
    && WindowInv(y.broker, sizes.replay)
    && Latest(Events(y.rows)) >= boot
    && |y.streams| == |y.broker.clients|
    && forall i | 0 <= i < |y.streams| ::
         SessionInv(Events(y.rows), y.broker.published, y.broker.clients[i], y.streams[i], sizes.queue, boot)
  }

  lemma {:induction false} CommitStep(y: Sys, gap: nat, body: string, sizes: Sizes, boot: int)
    requires SysInv(y, sizes, boot)
    ensures SysInv(SysStep(y, Commit(gap, body), sizes), sizes, boot)
  {
    hide SessionInv, WindowInv, RelayInv;
    var e := Event(Latest(Events(y.rows)) + 1 + gap, body);
    var after := SysStep(y, Commit(gap, body), sizes);
    assert Events(after.rows) == Events(y.rows) + [e];
    CommitKeepsRelay(y.rows, e, y.batch, y.broker.published, boot);
    assert forall x <- y.broker.published :: x in Events(y.rows) by { RelayIsWellFormed(y, boot); }
    forall i | 0 <= i < |y.streams|
      ensures SessionInv(Events(after.rows), y.broker.published, y.broker.clients[i], y.streams[i], sizes.queue, boot)
    {
      CommitKeepsSession(Events(y.rows), e, y.broker.published, y.broker.clients[i], y.streams[i], sizes.queue, boot);
    }
    assert (Events(y.rows) + [e])[..|y.rows|] == Events(y.rows);
  }

  lemma {:induction false} RelayIsWellFormed(y: Sys, boot: int)
    requires RelayInv(y.rows, y.batch, y.broker.published, boot)
    ensures WellFormed(Events(y.rows), y.batch, y.broker.published)
  {
  }

  lemma {:induction false} ClaimStep(y: Sys, now: int, sizes: Sizes, boot: int)
    requires SysInv(y, sizes, boot)
    ensures SysInv(SysStep(y, RelayClaim(now), sizes), sizes, boot)
  {
    hide SessionInv, WindowInv, RelayInv, ClaimBatch;
    if y.batch == [] {
      RelayIsWellFormed(y, boot);
      ClaimBatchClaimsInOrder(y.rows, now);
      var (rows, batch) := ClaimBatch(y.rows, LEASE_SECONDS, now, RELAY, RELAY_BATCH, {});
      ClaimKeepsRelay(y.rows, rows, batch, y.broker.published, boot);
    }
  }

  /** A sequence in the window is the very event published before. */
  lemma {:induction false} SeenIsPublished(y: Sys, sizes: Sizes, boot: int, e: Event)
    requires SysInv(y, sizes, boot) && e in Events(y.rows) && e.sequence in y.broker.seen
    ensures e in y.broker.published
  {
    hide SessionInv;
    var b := y.broker;
    var k :| 0 <= k < |b.order| && b.order[k] == e.sequence;
    var x := b.published[|b.published| - |b.order| + k];
    assert x in b.published;
    var i := RowOf(y.rows, x);
    var j := RowOf(y.rows, e);
    assert Events(y.rows)[i] == x && Events(y.rows)[j] == e;
  }

  lemma {:induction false} LaterThanHead(y: Sys, boot: int, e: Event)
    requires RelayInv(y.rows, y.batch, y.broker.published, boot) && y.batch != [] && e == y.batch[0]
    ensures forall x <- Events(y.rows) | x.sequence > boot && x !in y.broker.published && x != e :: x.sequence > e.sequence
  {
    HeadIsLeast(y.batch);
    assert y.batch == [e] + y.batch[1..];
    forall x <- Events(y.rows) | x.sequence > boot && x !in y.broker.published && x != e
      ensures x.sequence > e.sequence
    {
      UnpublishedAreLater(y.rows, y.batch, y.broker.published, boot, x);
    }
  }

  lemma {:induction false} PublishStep(y: Sys, marked: bool, sizes: Sizes, boot: int)
    requires SysInv(y, sizes, boot)
    ensures SysInv(SysStep(y, RelayPublish(marked), sizes), sizes, boot)
  {
    hide SessionInv, RelayInv, WindowInv, FanOut;
    if y.batch != [] {
      var e := y.batch[0];
      var after := SysStep(y, RelayPublish(marked), sizes);
      RelayIsWellFormed(y, boot);
      assert e in y.batch;
      MarkTouchesOne(y.rows, e);
      if e.sequence in y.broker.seen { SeenIsPublished(y, sizes, boot, e); }
      PublishKeepsRelay(y.rows, after.rows, y.batch, y.broker.published, after.broker.published, boot);
      PublishKeepsWindow(y.broker, e, sizes);
      if e.sequence !in y.broker.seen {
        LaterThanHead(y, boot, e);
        forall i | 0 <= i < |y.streams|
          ensures SessionInv(Events(after.rows), after.broker.published, after.broker.clients[i], after.streams[i], sizes.queue, boot)
        {
          PublishKeepsSession(Events(y.rows), y.broker.published, y.broker.clients[i], y.streams[i], e, sizes.queue, boot);
        }
      }
    }
  }

  lemma {:induction false} MarkTouchesOne(rows: seq<Row>, e: Event)
    requires InOrder(Events(rows)) && e in Events(rows)
    ensures OnlyTouches(rows, MarkPublished(rows, e.sequence, RELAY), e) && OnlyTouches(rows, rows, e)
  {
    var j := RowOf(rows, e);
    forall i | 0 <= i < |rows| && rows[i].event.sequence == e.sequence ensures rows[i].event == e {
      assert Events(rows)[i] == rows[i].event && Events(rows)[j] == e;
    }
  }

  lemma {:induction false} ConnectStep(y: Sys, id: Option<nat>, sizes: Sizes, boot: int)
    requires SysInv(y, sizes, boot)
    ensures SysInv(SysStep(y, Connect(id), sizes), sizes, boot)
  {
    hide WindowInv, RelayInv;
    var after := SysStep(y, Connect(id), sizes);
    RelayIsWellFormed(y, boot);
    StepKeepsWindow(y.broker, Subscribe(after.streams[|y.streams|].after), sizes);
    LatestBounds(Events(y.rows));
    assert SessionInv(Events(y.rows), y.broker.published, after.broker.clients[|y.streams|],
                      after.streams[|y.streams|], sizes.queue, boot);
  }

  lemma {:induction false} StreamStep(y: Sys, m: Move, sizes: Sizes, boot: int)
    requires SysInv(y, sizes, boot) && (m.Pull? || m.ReplayFails? || m.Disconnect?)
    ensures SysInv(SysStep(y, m, sizes), sizes, boot)
  {
    hide WindowInv, RelayInv, PullMove;
    RelayIsWellFormed(y, boot);
    if m.stream < |y.streams| {
      var c, s := y.broker.clients[m.stream], y.streams[m.stream];
      if m.Pull? { PullKeepsSession(y.rows, y.broker.published, c, s, sizes.queue, boot); }
      SameWindow(y.broker, SysStep(y, m, sizes).broker, sizes.replay);
    }
  }

  lemma {:induction false} SameWindow(b: Broker, b': Broker, replay: nat)
    requires WindowInv(b, replay) && b' == b.(clients := b'.clients)
    ensures WindowInv(b', replay)
  {
  }

  lemma {:induction false} RunKeepsSysInv(rows: seq<Row>, moves: seq<Move>, sizes: Sizes)
    requires InOrder(Events(rows))
    ensures SysInv(SysRun(rows, moves, sizes), sizes, Latest(Events(rows)))
  {
    var boot := Latest(Events(rows));
    if moves == [] {
      LatestBounds(Events(rows));
      forall i | 0 <= i < |rows| ensures Accounted(rows[i], [], [], boot) { assert Events(rows)[i] == rows[i].event; }
    } else {
      var y := SysRun(rows, moves[..|moves| - 1], sizes);
      RunKeepsSysInv(rows, moves[..|moves| - 1], sizes);
      match moves[|moves| - 1]
      case Commit(gap, body) => CommitStep(y, gap, body, sizes, boot);
      case RelayClaim(now) => ClaimStep(y, now, sizes, boot);
      case RelayPublish(marked) => PublishStep(y, marked, sizes, boot);
      case Connect(id) => ConnectStep(y, id, sizes, boot);
      case _ => StreamStep(y, moves[|moves| - 1], sizes, boot);
    }
  }

  /**
   No loss at the seam between replay and live, whatever the interleaving of commits, claims,
   publications, connects, page reads, replay failures and pulls, and whatever claims and marks were in
   the table at boot: on an open, non-overflowed connection, every committed event above Last-Event-ID
   was emitted, or is pending, or waits in the mailbox, or will still be replayed, or is not yet
   relayed and ahead of the client's cursor.
   */
  lemma {:induction false} NoCommittedEventIsLost(rows: seq<Row>, moves: seq<Move>, sizes: Sizes, i: nat, e: Event)
    requires InOrder(Events(rows))
    requires var y := SysRun(rows, moves, sizes);
      && i < |y.streams| && i < |y.broker.clients| && Connected(y.broker.clients[i], y.streams[i])
      && y.streams[i].after.Some? && e in Events(y.rows) && e.sequence > y.streams[i].after.value
    ensures var y := SysRun(rows, moves, sizes);
      var c, s := y.broker.clients[i], y.streams[i];
      || e in s.emitted || e in s.pending || e in c.box.items
      || NeedsReplay(s)
      || (s.phase.Paging? && (e in s.phase.out || s.phase.cursor < e.sequence <= s.phase.latest))
      || (e !in y.broker.published && e.sequence > c.cursor)
  {
    RunKeepsSysInv(rows, moves, sizes);
  }

  /** A client without Last-Event-ID misses nothing committed after it connected. */
  lemma {:induction false} FreshClientMissesNothingNew(rows: seq<Row>, moves: seq<Move>, sizes: Sizes, i: nat, e: Event)
    requires InOrder(Events(rows))
    requires var y := SysRun(rows, moves, sizes);
      && i < |y.streams| && i < |y.broker.clients| && Connected(y.broker.clients[i], y.streams[i])
      && y.streams[i].after.None? && e in Events(y.rows) && e.sequence > y.streams[i].bound
    ensures var y := SysRun(rows, moves, sizes);
      var c, s := y.broker.clients[i], y.streams[i];
      e in s.emitted || e in c.box.items || (e !in y.broker.published && e.sequence > c.cursor)
  {
    RunKeepsSysInv(rows, moves, sizes);
  }

  // ------------------------------------------------------ the stream's state

  class StreamState {
    const after: Option<int>
    var first: bool
    var lastSent: int
    var pending: seq<Event>
    var phase: Phase
    ghost var emitted: seq<Event>
    ghost var resynced: bool
    ghost var bound: int

    ghost function State(): Stream
      reads this
    {
      Stream(first, after, lastSent, pending, phase, emitted, resynced, bound)
    }

    constructor (after: Option<int>, ghost latest: int)
      ensures State() == NewStream(after, latest)
    {
      this.after := after;
      first, lastSent, pending, phase := true, 0, [], Idle;
      emitted, resynced, bound := [], false, latest;
    }

    /** One step of a pull; mailbox is the client as the broker shares it. */
    method PullOnce(rows: seq<Row>, mailbox: Client) returns (client: Client)
      modifies this
      ensures (client, State()) == PullMove(rows, mailbox, old(State()))
    {
      client := mailbox;
      match phase
      case Idle =>
        if first {
          first := false;
        } else if pending != [] || lastSent != 0 {
          phase := Waiting;
        } else {
          match PlanReplay(Events(rows), after)
          case NoReplay => phase := Waiting;
          case Resync(at) =>
            pending, phase := [ResyncEvent(at)], Waiting;
            resynced, bound := true, at;
          case Pages(latest) =>
            phase := Paging(after.value, latest, []);
            bound := latest;
        }
      case Paging(cursor, latest, out) =>
        var page := ReadAfter(rows, cursor, latest, PAGE);
        if cursor >= latest || page == [] {
          pending, phase := out, Waiting;
        } else {
          phase := Paging(page[|page| - 1].sequence, latest, out + page);
        }
      case Waiting =>
        if pending != [] {
          emitted := emitted + [pending[0]];
          lastSent, pending, phase := pending[0].sequence, pending[1..], Idle;
        } else if client.box.items != [] {
          var e := client.box.items[0];
          client := Consumed(client);
          emitted := if e.sequence <= lastSent then emitted else emitted + [e];
          lastSent, phase := e.sequence, Idle;
        } else if client.box.closed {
          phase := Ended;
        }
      case Ended =>
    }
  }
}
