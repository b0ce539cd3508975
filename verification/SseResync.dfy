/**
 Connections that were told to resynchronise, because their Last-Event-ID was ahead of the log or behind what is
 retained: what still reaches them over any run, and what never does.
 */
module SseResync {
  import opened Arith
  import opened Options
  import opened Outbox
  import opened SseBroker
  import opened SseStream
  import opened SseEmission

  /** The subscription is open and has not overflowed, whatever the client was told. */
  predicate Listening(c: Client, s: Stream) {
    c.subscribed && !c.box.closed && s.phase != Ended
  }

  /** The stream as one without replay that starts above both the bound and Last-Event-ID. */
  ghost function Above(c: Client, s: Stream): Stream { s.(bound := Max(s.bound, c.floor), after := None) }

  ghost predicate LaterIsTracked(events: seq<Event>, published: seq<Event>, c: Client, s: Stream) {
    && 0 <= s.bound <= Latest(events)
    && LiveIsTracked(events, published, c, Above(c, s))
    && NothingToSkip(c, Above(c, s))
    && (forall e <- s.pending :: e.sequence <= s.bound)
    && (s.phase.Paging? ==>
          && s.phase.latest == s.bound && s.lastSent == 0 && s.pending == []
          && (forall e <- s.phase.out :: e.sequence <= s.bound))
  }

  ghost predicate ResyncInv(events: seq<Event>, published: seq<Event>, c: Client, s: Stream) {
    s.resynced && Listening(c, s) ==> LaterIsTracked(events, published, c, s)
  }

  lemma {:induction false} CommitKeepsResync(
    events: seq<Event>, e: Event, published: seq<Event>, c: Client, s: Stream, queue: nat, boot: int)
    requires ResyncInv(events, published, c, s) && SessionInv(events, published, c, s, queue, boot)
    requires e.sequence > Latest(events) && forall x <- published :: x in events
    ensures ResyncInv(events + [e], published, c, s)
  {
    hide Tracked, ClientInv;
    LatestBounds(events);
    assert (events + [e])[..|events|] == events;
  }

  lemma {:induction false} PublishKeepsResync(
    events: seq<Event>, published: seq<Event>, c: Client, s: Stream, e: Event, queue: nat, boot: int)
    requires ResyncInv(events, published, c, s) && SessionInv(events, published, c, s, queue, boot)
    requires InOrder(events) && e in events
    requires e.sequence > boot && e !in published ==>
               forall x <- events | x.sequence > boot && x !in published && x != e :: x.sequence > e.sequence
    ensures ResyncInv(events, published + [e], Retain(Deliver(c, e, queue), queue), s)
  {
    hide Tracked;
    var after := Retain(Deliver(c, e, queue), queue);
    DeliverGets(c, e, queue);
    if s.resynced && Listening(after, s) {
      GotIsQueuedOrReceived(c, e);
      PublishKeepsLive(events, published, c, Above(c, s), e, queue);
    }
  }

  lemma {:induction false} StartPullKeepsResync(
    rows: seq<Row>, published: seq<Event>, c: Client, s: Stream)
    requires ResyncInv(Events(rows), published, c, s) && s.phase == Idle && c.floor >= 0
    ensures ResyncInv(Events(rows), published, c, StartPull(rows, s))
  {
    LatestBounds(Events(rows));
  }

  lemma {:induction false} ReadPageKeepsResync(rows: seq<Row>, published: seq<Event>, c: Client, s: Stream)
    requires ResyncInv(Events(rows), published, c, s) && s.phase.Paging? && InOrder(Events(rows))
    ensures ResyncInv(Events(rows), published, c, ReadPage(rows, s))
  {
    hide Between, InOrder;
    var events := Events(rows);
    var all := Between(events, s.phase.cursor, s.phase.latest);
    var page := ReadAfter(rows, s.phase.cursor, s.phase.latest, PAGE);
    BetweenIs(events, s.phase.cursor, s.phase.latest);
    forall e <- page ensures e.sequence <= s.phase.latest { assert e in all; }
  }

  lemma {:induction false} EmitPendingKeepsResync(events: seq<Event>, published: seq<Event>, c: Client, s: Stream)
    requires ResyncInv(events, published, c, s) && s.phase == Waiting && s.pending != []
    ensures ResyncInv(events, published, c, EmitNext(c, s).1)
  {
    assert s.pending == [s.pending[0]] + s.pending[1..];
    assert forall e :: e in EmitNext(c, s).1.emitted <==> e in s.emitted || e == s.pending[0];
  }

  lemma {:induction false} EmitLiveKeepsResync(
    events: seq<Event>, published: seq<Event>, c: Client, s: Stream, queue: nat)
    requires ResyncInv(events, published, c, s) && ClientInv(c, queue)
    requires s.phase == Waiting && s.pending == [] && c.box.items != []
    ensures var (c', s') := EmitNext(c, s); ResyncInv(events, published, c', s')
  {
    hide LiveIsTracked, ClientInv;
    var (c', s') := EmitNext(c, s);
    HeadOfQueue(c, queue);
    if s.resynced && Listening(c, s) {
      EmitLiveKeepsTracking(events, published, c, Above(c, s));
      assert EmitNext(c, Above(c, s)) == (c', Above(c', s'));
    }
  }

  lemma {:induction false} PullKeepsResync(
    rows: seq<Row>, published: seq<Event>, c: Client, s: Stream, queue: nat, boot: int)
    requires ResyncInv(Events(rows), published, c, s) && SessionInv(Events(rows), published, c, s, queue, boot)
    requires InOrder(Events(rows))
    ensures var (c', s') := PullMove(rows, c, s); ResyncInv(Events(rows), published, c', s')
  {
    hide LaterIsTracked, Tracked, ClientInv;
    match s.phase
    case Idle => StartPullKeepsResync(rows, published, c, s);
    case Paging(_, _, _) => ReadPageKeepsResync(rows, published, c, s);
    case Waiting =>
      if s.pending != [] {
        EmitPendingKeepsResync(Events(rows), published, c, s);
      } else if c.box.items != [] {
        EmitLiveKeepsResync(Events(rows), published, c, s, queue);
      }
    case Ended =>
  }

  ghost predicate SysResync(y: Sys) {
    |y.streams| == |y.broker.clients| &&
    forall i | 0 <= i < |y.streams| ::
      ResyncInv(Events(y.rows), y.broker.published, y.broker.clients[i], y.streams[i])
  }

  // -------------------------------------------------------------- whole runs

  lemma {:induction false} CommitStepKeepsResync(y: Sys, gap: nat, body: string, sizes: Sizes, boot: int)
    requires SysResync(y) && SysInv(y, sizes, boot)
    ensures SysResync(SysStep(y, Commit(gap, body), sizes))
  {
    hide ResyncInv, SessionInv, WindowInv, RelayInv;
    var e := Event(Latest(Events(y.rows)) + 1 + gap, body);
    var after := SysStep(y, Commit(gap, body), sizes);
    assert Events(after.rows) == Events(y.rows) + [e];
    RelayIsWellFormed(y, boot);
    forall i | 0 <= i < |y.streams|
      ensures ResyncInv(Events(after.rows), after.broker.published, after.broker.clients[i], after.streams[i])
    {
      CommitKeepsResync(Events(y.rows), e, y.broker.published, y.broker.clients[i], y.streams[i], sizes.queue, boot);
    }
  }

  lemma {:induction false} ClaimStepKeepsResync(y: Sys, now: int, sizes: Sizes)
    requires SysResync(y)
    ensures SysResync(SysStep(y, RelayClaim(now), sizes))
  {
    hide ResyncInv, ClaimableEvents;
    assert Events(SysStep(y, RelayClaim(now), sizes).rows) == Events(y.rows);
  }

  lemma {:induction false} PublishStepKeepsResync(y: Sys, marked: bool, sizes: Sizes, boot: int)
    requires SysResync(y) && SysInv(y, sizes, boot)
    ensures SysResync(SysStep(y, RelayPublish(marked), sizes))
  {
    hide ResyncInv, SessionInv, RelayInv, WindowInv, FanOut;
    if y.batch != [] {
      var e := y.batch[0];
      var after := SysStep(y, RelayPublish(marked), sizes);
      RelayIsWellFormed(y, boot);
      assert e in y.batch;
      assert Events(after.rows) == Events(y.rows);
      LaterThanHead(y, boot, e);
      forall i | 0 <= i < |y.streams| && e.sequence !in y.broker.seen
        ensures ResyncInv(Events(after.rows), after.broker.published, after.broker.clients[i], after.streams[i])
      {
        PublishKeepsResync(
          Events(y.rows), y.broker.published, y.broker.clients[i], y.streams[i], e, sizes.queue, boot);
      }
    }
  }

  lemma {:induction false} StreamStepKeepsResync(y: Sys, m: Move, sizes: Sizes, boot: int)
    requires SysResync(y) && SysInv(y, sizes, boot) && (m.Pull? || m.ReplayFails? || m.Disconnect?)
    ensures SysResync(SysStep(y, m, sizes))
  {
    hide WindowInv, RelayInv, PullMove, LaterIsTracked, Tracked, ClientInv;
    RelayIsWellFormed(y, boot);
    if m.stream < |y.streams| {
      var c, s := y.broker.clients[m.stream], y.streams[m.stream];
      assert SessionInv(Events(y.rows), y.broker.published, c, s, sizes.queue, boot);
      if m.Pull? { PullKeepsResync(y.rows, y.broker.published, c, s, sizes.queue, boot); }
      if m.ReplayFails? && s.phase.Paging? { FailedReplayKeepsResync(Events(y.rows), y.broker.published, c, s); }
    }
  }

  lemma {:induction false} FailedReplayKeepsResync(events: seq<Event>, published: seq<Event>, c: Client, s: Stream)
    requires ResyncInv(events, published, c, s) && s.phase.Paging?
    ensures ResyncInv(events, published, c, s.(phase := Idle))
  {
  }

  lemma {:induction false} RunKeepsResync(rows: seq<Row>, moves: seq<Move>, sizes: Sizes)
    requires InOrder(Events(rows))
    ensures SysResync(SysRun(rows, moves, sizes))
  {
    hide LaterIsTracked, SysInv;
    if moves != [] {
      var front, boot := moves[..|moves| - 1], Latest(Events(rows));
      var y := SysRun(rows, front, sizes);
      RunKeepsResync(rows, front, sizes);
      RunKeepsSysInv(rows, front, sizes);
      match moves[|moves| - 1]
      case Commit(gap, body) => CommitStepKeepsResync(y, gap, body, sizes, boot);
      case RelayClaim(now) => ClaimStepKeepsResync(y, now, sizes);
      case RelayPublish(marked) => PublishStepKeepsResync(y, marked, sizes, boot);
      case Connect(_) =>
      case _ => StreamStepKeepsResync(y, moves[|moves| - 1], sizes, boot);
    }
  }

  /**
   No loss after a resynchronisation either: on an open, non-overflowed connection that was told to resynchronise,
   every event above both the sequence it was told and its Last-Event-ID was emitted, waits in the mailbox, or is
   not yet relayed and ahead of the client's cursor.
   */
  lemma {:induction false} ResyncedClientMissesNothingLater(
    rows: seq<Row>, moves: seq<Move>, sizes: Sizes, i: nat, e: Event)
    requires InOrder(Events(rows))
    requires var y := SysRun(rows, moves, sizes);
      && i < |y.streams| && i < |y.broker.clients| && y.streams[i].resynced && y.streams[i].after.Some?
      && Listening(y.broker.clients[i], y.streams[i])
      && e in Events(y.rows) && e.sequence > y.streams[i].bound && e.sequence > y.streams[i].after.value
    ensures var y := SysRun(rows, moves, sizes);
      var c, s := y.broker.clients[i], y.streams[i];
      e in s.emitted || e in c.box.items || (e !in y.broker.published && e.sequence > c.cursor)
  {
    hide SysRun, Tracked, RelayInv, WindowInv;
    RunKeepsResync(rows, moves, sizes);
    RunKeepsSysInv(rows, moves, sizes);
    var y := SysRun(rows, moves, sizes);
    assert SessionInv(Events(y.rows), y.broker.published, y.broker.clients[i], y.streams[i], sizes.queue, Latest(Events(rows)));
    assert ResyncInv(Events(y.rows), y.broker.published, y.broker.clients[i], y.streams[i]);
  }

  // ------------------------------------------------------ who is told to

  /**
   Over any run, a stream that starts its replay is told to resynchronise if and only if its Last-Event-ID is above
   every sequence of the log, or every sequence is above it by more than one; otherwise it starts to page from its
   Last-Event-ID to the greatest sequence.
   */
  lemma {:induction false} ResyncIff(rows: seq<Row>, moves: seq<Move>, sizes: Sizes, i: nat, at: int)
    requires InOrder(Events(rows))
    requires var y := SysRun(rows, moves, sizes);
      && i < |y.streams| && i < |y.broker.clients| && NeedsReplay(y.streams[i]) && !y.streams[i].first
      && Greatest(Events(y.rows), at)
    ensures var y, u := SysRun(rows, moves, sizes), SysRun(rows, moves + [Pull(i)], sizes);
      var s := y.streams[i];
      && |u.streams| == |y.streams|
      && u.streams[i] ==
         if MustResync(Events(y.rows), s.after.value)
         then s.(pending := [ResyncEvent(at)], resynced := true, phase := Waiting, bound := at)
         else s.(phase := Paging(s.after.value, at, []), bound := at)
  {
    hide SysRun, MustResync, PlanReplay, SysInv, InOrder;
    RunKeepsSysInv(rows, moves, sizes);
    var y := SysRun(rows, moves, sizes);
    RunIsInOrder(y, sizes, Latest(Events(rows)));
    SysRunAppend(rows, moves, Pull(i), sizes);
    PlanIs(Events(y.rows), y.streams[i].after);
  }

  // ------------------------------------------------ what never reaches a client

  predicate Notice(e: Event) { e == ResyncEvent(e.sequence) }

  /** A resynchronisation notice, or an event above Last-Event-ID. */
  predicate LaterOrNotice(after: Option<int>, e: Event) { Notice(e) || (after.Some? ==> e.sequence > after.value) }

  ghost predicate SendsOnlyLater(s: Stream) {
    && (forall e <- s.emitted :: LaterOrNotice(s.after, e)) && (forall e <- s.pending :: LaterOrNotice(s.after, e))
    && (s.phase.Paging? ==>
          && s.after.Some? && s.phase.cursor >= s.after.value
          && forall e <- s.phase.out :: LaterOrNotice(s.after, e))
  }

  lemma {:induction false} PullSendsOnlyLater(
    rows: seq<Row>, published: seq<Event>, c: Client, s: Stream, queue: nat, boot: int)
    requires SendsOnlyLater(s) && SessionInv(Events(rows), published, c, s, queue, boot) && InOrder(Events(rows))
    ensures SendsOnlyLater(PullMove(rows, c, s).1)
  {
    hide Tracked, Between, InOrder;
    if s.phase.Paging? {
      var all := Between(Events(rows), s.phase.cursor, s.phase.latest);
      BetweenIs(Events(rows), s.phase.cursor, s.phase.latest);
      var page := ReadAfter(rows, s.phase.cursor, s.phase.latest, PAGE);
      forall e <- page ensures e.sequence > s.phase.cursor { assert e in all; }
      assert page != [] ==> page[|page| - 1] in page;
    } else if s.phase == Waiting && s.pending != [] {
      assert s.pending == [s.pending[0]] + s.pending[1..];
    } else if s.phase == Waiting && c.box.items != [] {
      HeadIsLater(c, s, queue);
    } else if s.phase == Idle {
      assert forall at :: Notice(ResyncEvent(at));
    }
  }

  lemma {:induction false} HeadIsLater(c: Client, s: Stream, queue: nat)
    requires ClientInv(c, queue) && c.box.items != [] && (s.after.Some? ==> c.floor == s.after.value)
    ensures LaterOrNotice(s.after, c.box.items[0])
  {
    GotIsQueuedOrReceived(c, c.box.items[0]);
  }

  /** No other move touches what a stream sends. */
  lemma {:induction false} OtherMovesKeepStream(y: Sys, m: Move, sizes: Sizes, i: nat)
    requires i < |y.streams| && m != Pull(i)
    ensures var after := SysStep(y, m, sizes);
      && i < |after.streams|
      && (after.streams[i] == y.streams[i] || after.streams[i] == y.streams[i].(phase := Idle)
          || after.streams[i] == y.streams[i].(phase := Ended))
  {
    hide PullMove, ClaimBatch, MarkPublished, Publish;
  }

  lemma {:induction false} StepSendsOnlyLater(y: Sys, m: Move, sizes: Sizes, i: nat, boot: int)
    requires SysInv(y, sizes, boot) && InOrder(Events(y.rows)) && i < |SysStep(y, m, sizes).streams|
    requires i < |y.streams| ==> SendsOnlyLater(y.streams[i])
    ensures SendsOnlyLater(SysStep(y, m, sizes).streams[i])
  {
    hide SendsOnlyLater, PullMove, RelayInv, WindowInv, SessionInv;
    if i < |y.streams| && m != Pull(i) {
      OtherMovesKeepStream(y, m, sizes, i);
      PhaseSendsOnlyLater(y.streams[i]);
    } else if i < |y.streams| {
      PullSendsOnlyLater(y.rows, y.broker.published, y.broker.clients[i], y.streams[i], sizes.queue, boot);
    } else {
      NewStreamSendsOnlyLater(if m.lastEventId.Some? then Some(m.lastEventId.value as int) else None, Latest(Events(y.rows)));
    }
  }

  lemma {:induction false} RunSendsOnlyLater(rows: seq<Row>, moves: seq<Move>, sizes: Sizes, i: nat)
    requires InOrder(Events(rows)) && i < |SysRun(rows, moves, sizes).streams|
    ensures SendsOnlyLater(SysRun(rows, moves, sizes).streams[i])
  {
    hide SendsOnlyLater, SysStep, SysInv;
    if moves != [] {
      var front := moves[..|moves| - 1];
      var y := SysRun(rows, front, sizes);
      RunKeepsSysInv(rows, front, sizes);
      RunIsInOrder(y, sizes, Latest(Events(rows)));
      if i < |y.streams| { RunSendsOnlyLater(rows, front, sizes, i); }
      StepSendsOnlyLater(y, moves[|moves| - 1], sizes, i, Latest(Events(rows)));
    }
  }

  lemma {:induction false} RunIsInOrder(y: Sys, sizes: Sizes, boot: int)
    requires SysInv(y, sizes, boot)
    ensures InOrder(Events(y.rows))
  {
    hide SessionInv, WindowInv;
    RelayIsWellFormed(y, boot);
  }

  lemma {:induction false} PhaseSendsOnlyLater(s: Stream)
    requires SendsOnlyLater(s)
    ensures SendsOnlyLater(s.(phase := Idle)) && SendsOnlyLater(s.(phase := Ended))
  {
  }

  lemma {:induction false} NewStreamSendsOnlyLater(after: Option<int>, latest: int)
    ensures SendsOnlyLater(NewStream(after, latest))
  {
  }

  /**
   A client never gets an event at or below its Last-Event-ID. So one that was ahead of the log gets a notice with
   the log's sequence, but none of the events committed after it up to its own Last-Event-ID.
   */
  lemma {:induction false} NothingBelowLastEventId(rows: seq<Row>, moves: seq<Move>, sizes: Sizes, i: nat, e: Event)
    requires InOrder(Events(rows)) && !Notice(e)
    requires var y := SysRun(rows, moves, sizes);
      && i < |y.streams| && i < |y.broker.clients|
      && y.streams[i].after.Some? && e.sequence <= y.streams[i].after.value
    ensures var y := SysRun(rows, moves, sizes);
      && e !in y.streams[i].emitted && e !in y.streams[i].pending
      && e !in y.broker.clients[i].box.items && e !in y.broker.clients[i].received
  {
    hide SysRun, RelayInv, WindowInv, Tracked;
    RunKeepsSysInv(rows, moves, sizes);
    RunSendsOnlyLater(rows, moves, sizes, i);
    var y := SysRun(rows, moves, sizes);
    assert SessionInv(Events(y.rows), y.broker.published, y.broker.clients[i], y.streams[i], sizes.queue, Latest(Events(rows)));
    GotIsQueuedOrReceived(y.broker.clients[i], e);
  }

  // A run: a client at 9 connects to a log that ends at 5; 6 is committed and relayed, and passes it by.

  lemma {:induction false} NoticeIsPulled(rows: seq<Row>, c: Client, s: Stream, at: int)
    requires PlanReplay(Events(rows), s.after) == Resync(at) && s == NewStream(s.after, at)
    ensures Pulls(rows, c, s, 3) == (c, s.(
      first := false, lastSent := at, emitted := [ResyncEvent(at)], resynced := true))
  {
    hide Pulls, PlanReplay;
    OnePull(rows, c, s, 0);
    OnePull(rows, c, s, 1);
    OnePull(rows, c, s, 2);
    assert [ResyncEvent(at)][1..] == [] && [] + [ResyncEvent(at)] == [ResyncEvent(at)];
  }

  lemma {:induction false} FiveIsBehindNine()
    ensures Events(AT_BOOT) == [FIVE] && PlanReplay([FIVE], Some(9)) == Resync(5)
  {
    LatestOfThree();
  }

  lemma {:induction false} ClientAtNine()
    ensures var y := SysRun(AT_BOOT, [Connect(Some(9))] + Pulling(3), SIZES);
      && y.rows == AT_BOOT && y.batch == [] && y.broker.seen == {} && y.broker.published == []
      && |y.streams| == 1 && y.streams[0].after == Some(9) && y.streams[0].emitted == [ResyncEvent(5)]
  {
    hide SysRun, Pulls;
    BootState();
    assert [] + [Connect(Some(9))] == [Connect(Some(9))];
    SysRunAppend(AT_BOOT, [], Connect(Some(9)), SIZES);
    FiveIsBehindNine();
    LatestOfThree();
    var y := SysRun(AT_BOOT, [Connect(Some(9))], SIZES);
    assert y.streams == [NewStream(Some(9), 5)];
    PullsRun(AT_BOOT, [Connect(Some(9))], 3, SIZES);
    NoticeIsPulled(AT_BOOT, y.broker.clients[0], y.streams[0], 5);
    PullsKeepBroker(AT_BOOT, [Connect(Some(9))], 3, SIZES);
  }

  lemma {:induction false} PullsKeepBroker(rows: seq<Row>, moves: seq<Move>, n: nat, sizes: Sizes)
    ensures var y, after := SysRun(rows, moves, sizes), SysRun(rows, moves + Pulling(n), sizes);
      && after.rows == y.rows && after.batch == y.batch
      && after.broker.seen == y.broker.seen && after.broker.published == y.broker.published
  {
    hide PullMove;
    if n == 0 {
      assert moves + Pulling(0) == moves;
    } else {
      PullsKeepBroker(rows, moves, n - 1, sizes);
      assert moves + Pulling(n) == (moves + Pulling(n - 1)) + [Pull(0)];
      SysRunAppend(rows, moves + Pulling(n - 1), Pull(0), sizes);
    }
  }

  lemma {:induction false} SixIsClaimed()
    ensures ClaimBatch(AT_BOOT + [Row(SIX, None, false, 0)], LEASE_SECONDS, 0, RELAY, RELAY_BATCH, {}).1 == [SIX]
  {
    var rows := AT_BOOT + [Row(SIX, None, false, 0)];
    var cutoff := 0 - LEASE_SECONDS;
    assert rows[..1] == AT_BOOT && AT_BOOT[..0] == [];
    assert ClaimableEvents(AT_BOOT, cutoff, {}) == [];
    assert ClaimableEvents(rows, cutoff, {}) == [] + [SIX] == [SIX];
  }

  lemma {:induction false} ClientAheadOfTheLogIsPassedBy()
    ensures var y := SysRun(AT_BOOT,
        [Connect(Some(9))] + Pulling(3) + [Commit(0, "")] + [RelayClaim(0)] + [RelayPublish(true)], SIZES);
      && |y.streams| == 1 && SIX in y.broker.published
      && y.streams[0].after == Some(9) && y.streams[0].emitted == [ResyncEvent(5)]
  {
    hide SysRun, ClaimBatch;
    ClientAtNine();
    var moves := [Connect(Some(9))] + Pulling(3);
    SysRunAppend(AT_BOOT, moves, Commit(0, ""), SIZES);
    SysRunAppend(AT_BOOT, moves + [Commit(0, "")], RelayClaim(0), SIZES);
    SysRunAppend(AT_BOOT, moves + [Commit(0, "")] + [RelayClaim(0)], RelayPublish(true), SIZES);
    FiveIsBehindNine();
    LatestOfThree();
    SixIsClaimed();
  }

  // With nothing in the log the notice does not even raise the last sent sequence.

  function Notices(n: nat): seq<Event> { seq(n, _ => ResyncEvent(0)) }

  /** While the log is empty, every two further pulls of a client that came with an id send the notice again. */
  lemma {:induction false} EmptyLogRepeatsNotice(rows: seq<Row>, c: Client, s: Stream, n: nat)
    requires Events(rows) == [] && s.after.Some? && s.after.value > 0 && s == NewStream(s.after, 0)
    ensures Pulls(rows, c, s, 1 + 2 * n) ==
      (c, s.(first := false, emitted := Notices(n), resynced := n > 0))
  {
    hide Pulls;
    if n == 0 {
      OnePull(rows, c, s, 0);
      assert Notices(0) == [];
    } else {
      EmptyLogRepeatsNotice(rows, c, s, n - 1);
      OnePull(rows, c, s, 2 * n - 1);
      OnePull(rows, c, s, 2 * n);
      assert PlanReplay(Events(rows), s.after) == Resync(0);
      assert [ResyncEvent(0)][1..] == [];
      assert Notices(n) == Notices(n - 1) + [ResyncEvent(0)];
    }
  }

  lemma {:induction false} EmptyLogRepeatsNoticeRun(id: nat, n: nat, sizes: Sizes)
    requires id > 0
    ensures var y := SysRun([], [Connect(Some(id))] + Pulling(1 + 2 * n), sizes);
      |y.streams| == 1 && y.streams[0].emitted == Notices(n)
  {
    hide SysRun, Pulls;
    EmptyBoot(sizes);
    assert [] + [Connect(Some(id))] == [Connect(Some(id))];
    SysRunAppend([], [], Connect(Some(id)), sizes);
    var y := SysRun([], [Connect(Some(id))], sizes);
    assert y.streams == [NewStream(Some(id as int), 0)];
    PullsRun([], [Connect(Some(id))], 1 + 2 * n, sizes);
    EmptyLogRepeatsNotice([], y.broker.clients[0], y.streams[0], n);
  }

  lemma {:induction false} EmptyBoot(sizes: Sizes)
    ensures SysRun([], [], sizes) == Boot([]) && Events([]) == [] && Latest([]) == 0
  {
  }
}
