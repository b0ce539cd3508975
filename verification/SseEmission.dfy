/**
 What a connection with Last-Event-ID emits over any run, event by event, and a run that sends one twice.
 */
module SseEmission {
  import opened Options
  import opened Outbox
  import opened SseBroker
  import opened SseStream

  // -------------------------------------------------- what exactly is emitted

  /** The sequence of the last event, or 0. */
  function LastSequence(events: seq<Event>): int {
    if events == [] then 0 else events[|events| - 1].sequence
  }

  /** What is emitted of the events received after a replay: only the first one can be skipped. */
  function AfterReplay(replayed: seq<Event>, received: seq<Event>): seq<Event> {
    if received != [] && received[0].sequence <= LastSequence(replayed) then received[1..] else received
  }

  /** The stream has emitted part of the replay, or all of it and then what followed. */
  ghost predicate EmitsAre(events: seq<Event>, c: Client, s: Stream, replayed: seq<Event>) {
    && s.emitted == replayed + AfterReplay(replayed, c.received)
    && s.lastSent == LastSequence(if c.received == [] then replayed else c.received)
    && (c.received != [] ==> s.pending == [] && s.lastSent > 0)
    && (replayed != [] ==> s.lastSent > 0)
    && ReplayIs(events, c, s, replayed)
  }

  /** Where the replay stands: to be started, reading pages, or read and being emitted. */
  ghost predicate ReplayIs(events: seq<Event>, c: Client, s: Stream, replayed: seq<Event>) {
    if s.after.None? then replayed == [] && s.pending == [] && !s.phase.Paging?
    else if s.phase.Paging? then
      && c.received == [] && replayed == [] && s.pending == []
      && s.after.value <= s.phase.cursor <= s.phase.latest == s.bound <= Latest(events)
      && s.phase.out == Between(events, s.after.value, s.phase.cursor)
    else
      || (NeedsReplay(s) && c.received == [] && replayed == [])
      || (s.bound <= Latest(events) && replayed + s.pending == Between(events, s.after.value, s.bound))
  }

  ghost predicate EmitInv(events: seq<Event>, c: Client, s: Stream) {
    s.resynced || s.phase == Ended || exists replayed :: EmitsAre(events, c, s, replayed)
  }

  lemma {:induction false} CommitKeepsEmits(events: seq<Event>, e: Event, c: Client, s: Stream)
    requires EmitInv(events, c, s) && e.sequence > Latest(events)
    ensures EmitInv(events + [e], c, s)
  {
    if !s.resynced && s.phase != Ended {
      var replayed :| EmitsAre(events, c, s, replayed);
      if s.after.Some? {
        if s.bound <= Latest(events) { LaterCommitsAreOutside(events, [e], s.after.value, s.bound); }
        if s.phase.Paging? { LaterCommitsAreOutside(events, [e], s.after.value, s.phase.cursor); }
      }
      LatestGrows(events, e);
      hide Between, Latest, AfterReplay;
      assert EmitsAre(events + [e], c, s, replayed);
    }
  }

  lemma {:induction false} LatestGrows(events: seq<Event>, e: Event)
    ensures Latest(events + [e]) >= Latest(events)
  {
    assert (events + [e])[..|events|] == events;
  }

  lemma {:induction false} StartPullKeepsEmits(rows: seq<Row>, c: Client, s: Stream, replayed: seq<Event>)
    requires s.phase == Idle && EmitsAre(Events(rows), c, s, replayed)
    ensures EmitInv(Events(rows), c, StartPull(rows, s))
  {
    var after := StartPull(rows, s);
    if !after.resynced {
      if after.phase.Paging? { EmptyRange(Events(rows), s.after.value); }
      hide Between, Latest, AfterReplay;
      assert EmitsAre(Events(rows), c, after, replayed);
    }
  }

  lemma {:induction false} ReadPageKeepsEmits(rows: seq<Row>, c: Client, s: Stream)
    requires InOrder(Events(rows)) && s.phase.Paging? && s.after.Some? && EmitsAre(Events(rows), c, s, [])
    ensures EmitInv(Events(rows), c, ReadPage(rows, s))
  {
    hide Between, Latest, InOrder;
    var events := Events(rows);
    var from, cursor, latest := s.after.value, s.phase.cursor, s.phase.latest;
    var page := ReadAfter(rows, cursor, latest, PAGE);
    if cursor < latest {
      BetweenSplits(events, from, cursor, latest);
      if page != [] {
        var m := page[|page| - 1].sequence;
        PageContinues(events, cursor, latest, PAGE);
        BetweenSplits(events, cursor, m, latest);
        BetweenSplits(events, from, cursor, m);
        SameHead(page, Between(events, cursor, m), Between(events, m, latest));
      }
    }
    assert EmitsAre(events, c, ReadPage(rows, s), []);
  }

  lemma {:induction false} SameHead<T>(a: seq<T>, b: seq<T>, rest: seq<T>)
    requires a + rest == b + rest
    ensures a == b
  {
    assert a == (a + rest)[..|a|] && b == (b + rest)[..|b|];
  }

  lemma {:induction false} EmitPendingKeepsEmits(events: seq<Event>, c: Client, s: Stream, replayed: seq<Event>)
    requires s.phase == Waiting && s.pending != [] && EmitsAre(events, c, s, replayed)
    requires forall e <- s.pending :: e.sequence > 0
    ensures EmitInv(events, c, EmitNext(c, s).1)
  {
    hide Between, Latest;
    var more := replayed + [s.pending[0]];
    assert replayed + s.pending == more + s.pending[1..];
    assert EmitsAre(events, c, EmitNext(c, s).1, more);
  }

  lemma {:induction false} EmitLiveKeepsEmits(events: seq<Event>, c: Client, s: Stream, replayed: seq<Event>, queue: nat)
    requires ClientInv(c, queue) && c.box.items != [] && c.box.items[0].sequence > 0
    requires s.phase == Waiting && s.pending == [] && EmitsAre(events, c, s, replayed)
    ensures var (c', s') := EmitNext(c, s); EmitInv(events, c', s')
  {
    hide Between, Latest;
    var (c', s') := EmitNext(c, s);
    var e := c.box.items[0];
    HeadOfQueue(c, queue);
    hide ClientInv;
    if c.received != [] { LastReceivedIsBefore(c, queue); }
    assert EmitsAre(events, c', s', replayed);
  }

  lemma {:induction false} LastReceivedIsBefore(c: Client, queue: nat)
    requires ClientInv(c, queue) && c.box.items != [] && c.received != []
    ensures LastSequence(c.received) < c.box.items[0].sequence
  {
    assert Got(c)[|c.received| - 1] == c.received[|c.received| - 1] && Got(c)[|c.received|] == c.box.items[0];
  }

  lemma {:induction false} PullKeepsEmits(rows: seq<Row>, published: seq<Event>, c: Client, s: Stream, queue: nat)
    requires EmitInv(Events(rows), c, s) && ClientInv(c, queue) && InOrder(Events(rows))
    requires (forall e <- Got(c) :: e in published) && (forall e <- published :: e in Events(rows))
    ensures var (c', s') := PullMove(rows, c, s); EmitInv(Events(rows), c', s')
  {
    hide EmitsAre, ClientInv;
    var events := Events(rows);
    if !s.resynced && s.phase != Ended {
      var replayed :| EmitsAre(events, c, s, replayed);
      match s.phase
      case Idle => StartPullKeepsEmits(rows, c, s, replayed);
      case Paging(_, _, _) =>
        PagingHasNoReplayed(events, c, s, replayed);
        ReadPageKeepsEmits(rows, c, s);
      case Waiting =>
        if s.pending != [] {
          PendingIsPositive(events, c, s, replayed);
          EmitPendingKeepsEmits(events, c, s, replayed);
        } else if c.box.items != [] {
          GotIsQueuedOrReceived(c, c.box.items[0]);
          EmitLiveKeepsEmits(events, c, s, replayed, queue);
        }
      case Ended =>
    }
  }

  lemma {:induction false} PagingHasNoReplayed(events: seq<Event>, c: Client, s: Stream, replayed: seq<Event>)
    requires EmitsAre(events, c, s, replayed) && s.phase.Paging?
    ensures s.after.Some? && replayed == []
  {
  }

  lemma {:induction false} PendingIsPositive(events: seq<Event>, c: Client, s: Stream, replayed: seq<Event>)
    requires EmitsAre(events, c, s, replayed) && s.pending != [] && InOrder(events) && !s.phase.Paging?
    ensures forall e <- s.pending :: e.sequence > 0
  {
    BetweenIs(events, s.after.value, s.bound);
    hide Between;
    forall e <- s.pending ensures e.sequence > 0 { assert e in replayed + s.pending; }
  }

  ghost predicate SysEmits(y: Sys) {
    |y.streams| == |y.broker.clients| &&
    forall i | 0 <= i < |y.streams| :: EmitInv(Events(y.rows), y.broker.clients[i], y.streams[i])
  }

  /** Publications change no mailbox's received events, which is all that the emitted ones depend on. */
  lemma {:induction false} SameReceivedSameEmits(events: seq<Event>, c: Client, c': Client, s: Stream)
    requires EmitInv(events, c, s) && c'.received == c.received
    ensures EmitInv(events, c', s)
  {
    if !s.resynced && s.phase != Ended {
      var replayed :| EmitsAre(events, c, s, replayed);
      assert EmitsAre(events, c', s, replayed);
    }
  }

  lemma {:induction false} PublishKeepsEmits(y: Sys, marked: bool, sizes: Sizes)
    requires SysEmits(y)
    ensures SysEmits(SysStep(y, RelayPublish(marked), sizes))
  {
    hide EmitInv;
    var after := SysStep(y, RelayPublish(marked), sizes);
    if y.batch != [] {
      assert Events(after.rows) == Events(y.rows);
      forall i | 0 <= i < |y.streams| ensures EmitInv(Events(after.rows), after.broker.clients[i], after.streams[i]) {
        SameReceivedSameEmits(Events(y.rows), y.broker.clients[i], after.broker.clients[i], y.streams[i]);
      }
    }
  }

  lemma {:induction false} ClaimKeepsEmits(y: Sys, now: int, sizes: Sizes)
    requires SysEmits(y)
    ensures SysEmits(SysStep(y, RelayClaim(now), sizes))
  {
    hide EmitInv, ClaimableEvents;
    assert Events(SysStep(y, RelayClaim(now), sizes).rows) == Events(y.rows);
  }

  lemma {:induction false} CommitStepKeepsEmits(y: Sys, gap: nat, body: string, sizes: Sizes)
    requires SysEmits(y)
    ensures SysEmits(SysStep(y, Commit(gap, body), sizes))
  {
    hide EmitInv;
    var e := Event(Latest(Events(y.rows)) + 1 + gap, body);
    var after := SysStep(y, Commit(gap, body), sizes);
    assert Events(after.rows) == Events(y.rows) + [e];
    forall i | 0 <= i < |y.streams| ensures EmitInv(Events(after.rows), after.broker.clients[i], after.streams[i]) {
      CommitKeepsEmits(Events(y.rows), e, y.broker.clients[i], y.streams[i]);
    }
  }

  lemma {:induction false} NewStreamEmits(events: seq<Event>, after: Option<int>, latest: int, queue: nat, since: nat)
    ensures EmitInv(events, NewClient(after, queue, since), NewStream(after, latest))
  {
    assert EmitsAre(events, NewClient(after, queue, since), NewStream(after, latest), []);
  }

  lemma {:induction false} ReplayFailsKeepsEmits(events: seq<Event>, c: Client, s: Stream)
    requires EmitInv(events, c, s) && s.phase.Paging?
    ensures EmitInv(events, c, s.(phase := Idle))
  {
    if !s.resynced {
      var replayed :| EmitsAre(events, c, s, replayed);
      assert EmitsAre(events, c, s.(phase := Idle), replayed);
    }
  }

  lemma {:induction false} StreamStepKeepsEmits(y: Sys, m: Move, sizes: Sizes, boot: int)
    requires SysEmits(y) && SysInv(y, sizes, boot) && (m.Pull? || m.ReplayFails? || m.Disconnect?)
    ensures SysEmits(SysStep(y, m, sizes))
  {
    hide WindowInv, RelayInv, PullMove, EmitsAre, Tracked, ClientInv;
    RelayIsWellFormed(y, boot);
    if m.stream < |y.streams| {
      var c, s := y.broker.clients[m.stream], y.streams[m.stream];
      assert SessionInv(Events(y.rows), y.broker.published, c, s, sizes.queue, boot);
      if m.Pull? { PullKeepsEmits(y.rows, y.broker.published, c, s, sizes.queue); }
      if m.ReplayFails? && s.phase.Paging? { ReplayFailsKeepsEmits(Events(y.rows), c, s); }
    }
  }

  lemma {:induction false} RunKeepsEmits(rows: seq<Row>, moves: seq<Move>, sizes: Sizes)
    requires InOrder(Events(rows))
    ensures SysEmits(SysRun(rows, moves, sizes))
  {
    hide EmitInv, SysInv;
    if moves != [] {
      var front := moves[..|moves| - 1];
      var y := SysRun(rows, front, sizes);
      RunKeepsEmits(rows, front, sizes);
      RunKeepsSysInv(rows, front, sizes);
      match moves[|moves| - 1]
      case Commit(gap, body) => CommitStepKeepsEmits(y, gap, body, sizes);
      case RelayClaim(now) => ClaimKeepsEmits(y, now, sizes);
      case RelayPublish(marked) => PublishKeepsEmits(y, marked, sizes);
      case Connect(id) =>
        var after := if id.Some? then Some(id.value as int) else None;
        NewStreamEmits(Events(y.rows), after, Latest(Events(y.rows)), sizes.queue, |y.broker.published|);
      case _ => StreamStepKeepsEmits(y, moves[|moves| - 1], sizes, Latest(Events(rows)));
    }
  }

  /** The number of received events at or below the last replayed one. */
  function Covered(received: seq<Event>, last: int): (k: nat)
    ensures k <= |received|
    ensures forall i | 0 <= i < k :: received[i].sequence <= last
    ensures k < |received| ==> received[k].sequence > last
  {
    if received == [] || received[0].sequence > last then 0 else 1 + Covered(received[1..], last)
  }

  predicate Repeats(events: seq<Event>) { exists i, j | 0 <= i < j < |events| :: events[i] == events[j] }

  /**
   Exactly what a connection with Last-Event-ID emits over any run, once it has received live events: the
   unpaged read of the log up to the replay bound, then everything received except a first event that the
   replay covered. So of k received events that the replay covered all but the first are sent twice.
   */
  lemma {:induction false} EmittedExactly(rows: seq<Row>, moves: seq<Move>, sizes: Sizes, i: nat)
    requires InOrder(Events(rows))
    requires var y := SysRun(rows, moves, sizes);
      && i < |y.streams| && i < |y.broker.clients| && y.broker.clients[i].received != []
      && !y.streams[i].resynced && y.streams[i].phase != Ended && y.streams[i].after.Some?
    ensures var y := SysRun(rows, moves, sizes);
      var received, s := y.broker.clients[i].received, y.streams[i];
      var replayed := Between(Events(y.rows), s.after.value, s.bound);
      var k := Covered(received, LastSequence(replayed));
      && s.emitted == replayed + (if k == 0 then received else received[1..])
      && (forall e <- received[..k] :: e in replayed)
      && (Repeats(s.emitted) <==> k >= 2)
  {
    hide SysRun, InOrder, Between, EmitsAre, SessionInv, RelayInv, WindowInv;
    RunKeepsEmits(rows, moves, sizes);
    RunKeepsSysInv(rows, moves, sizes);
    var y := SysRun(rows, moves, sizes);
    var c, s := y.broker.clients[i], y.streams[i];
    var replayed :| EmitsAre(Events(y.rows), c, s, replayed);
    RelayIsWellFormed(y, Latest(Events(rows)));
    ReceivedFacts(Events(y.rows), y.broker.published, c, s, sizes.queue, Latest(Events(rows)));
    ReplayIsRead(Events(y.rows), c, s, replayed);
    BetweenIs(Events(y.rows), s.after.value, s.bound);
    CoveredAreReplayed(Events(y.rows), c.received, s.after.value, s.bound);
    RepeatsIffTwoCovered(replayed, c.received);
  }

  lemma {:induction false} ReplayIsRead(events: seq<Event>, c: Client, s: Stream, replayed: seq<Event>)
    requires EmitsAre(events, c, s, replayed) && c.received != [] && s.after.Some?
    ensures replayed == Between(events, s.after.value, s.bound)
    ensures s.emitted == replayed + AfterReplay(replayed, c.received)
  {
    hide Between;
  }

  lemma {:induction false} ReceivedFacts(
    events: seq<Event>, published: seq<Event>, c: Client, s: Stream, queue: nat, boot: int)
    requires SessionInv(events, published, c, s, queue, boot) && s.after.Some?
    requires forall e <- published :: e in events
    ensures Ascending(c.received) && forall e <- c.received :: e in events && e.sequence > s.after.value
  {
    hide Tracked;
    forall i, j | 0 <= i < j < |c.received| ensures c.received[i].sequence < c.received[j].sequence {
      assert Got(c)[i] == c.received[i] && Got(c)[j] == c.received[j];
    }
    forall e <- c.received ensures e in Got(c) { GotIsQueuedOrReceived(c, e); }
  }

  lemma {:induction false} CoveredAreReplayed(events: seq<Event>, received: seq<Event>, after: int, bound: int)
    requires InOrder(events) && forall e <- received :: e in events && e.sequence > after
    ensures var replayed := Between(events, after, bound);
      forall e <- received[..Covered(received, LastSequence(replayed))] :: e.sequence > 0 ==> e in replayed
    ensures forall e <- received :: e.sequence > 0
  {
    hide Covered;
    BetweenIs(events, after, bound);
    var replayed := Between(events, after, bound);
    var k := Covered(received, LastSequence(replayed));
    forall e <- received[..k] | e.sequence > 0 ensures e in replayed {
      assert e.sequence <= LastSequence(replayed);
      assert replayed != [] ==> replayed[|replayed| - 1] in replayed;
    }
  }

  /** Both parts ascend, so a repeat is an event of the second part that the first one holds. */
  lemma {:induction false} RepeatsIffTwoCovered(replayed: seq<Event>, received: seq<Event>)
    requires Ascending(replayed) && Ascending(received) && received != []
    requires var k := Covered(received, LastSequence(replayed)); forall e <- received[..k] :: e in replayed
    ensures Repeats(replayed + AfterReplay(replayed, received)) <==> Covered(received, LastSequence(replayed)) >= 2
  {
    hide Covered;
    var k := Covered(received, LastSequence(replayed));
    var emitted := replayed + AfterReplay(replayed, received);
    if k >= 2 {
      assert received[1] == received[..k][1] && received[..k][1] in replayed;
      var i :| 0 <= i < |replayed| && replayed[i] == received[1];
      assert emitted[i] == emitted[|replayed|];
    } else {
      forall e <- AfterReplay(replayed, received) ensures e.sequence > LastSequence(replayed) {
        var j :| 0 <= j < |received| && received[j] == e && j >= k;
        assert k < |received|;
        assert j > k ==> received[k].sequence < received[j].sequence;
      }
    }
  }

  // --------------------------------------- a run that sends an event twice

  const AT_BOOT: seq<Row> := [Row(Event(5, ""), None, true, 1)]
  const SIZES: Sizes := Sizes(10, 10)

  /** A client connects after 5; then 6 and 7 are committed, relayed and queued for it. */
  const QUEUED: seq<Move> :=
    [Connect(Some(5)), Commit(0, ""), Commit(0, ""), RelayClaim(0), RelayPublish(true), RelayPublish(true)]

  function Pulling(n: nat): seq<Move> { seq(n, _ => Pull(0)) }

  lemma {:induction false} SysRunAppend(rows: seq<Row>, moves: seq<Move>, m: Move, sizes: Sizes)
    ensures SysRun(rows, moves + [m], sizes) == SysStep(SysRun(rows, moves, sizes), m, sizes)
  {
    assert (moves + [m])[..|moves|] == moves;
  }

  function Pulls(rows: seq<Row>, c: Client, s: Stream, n: nat): (Client, Stream) {
    if n == 0 then (c, s) else
    var (c', s') := Pulls(rows, c, s, n - 1);
    PullMove(rows, c', s')
  }

  lemma {:induction false} PullsRun(rows: seq<Row>, moves: seq<Move>, n: nat, sizes: Sizes)
    requires var y := SysRun(rows, moves, sizes); |y.streams| == 1 && |y.broker.clients| == 1
    ensures var y, after := SysRun(rows, moves, sizes), SysRun(rows, moves + Pulling(n), sizes);
      && after.rows == y.rows && |after.streams| == 1 && |after.broker.clients| == 1
      && (after.broker.clients[0], after.streams[0]) == Pulls(y.rows, y.broker.clients[0], y.streams[0], n)
  {
    hide PullMove;
    if n == 0 {
      assert moves + Pulling(0) == moves;
    } else {
      PullsRun(rows, moves, n - 1, sizes);
      assert moves + Pulling(n) == (moves + Pulling(n - 1)) + [Pull(0)];
      SysRunAppend(rows, moves + Pulling(n - 1), Pull(0), sizes);
    }
  }

  lemma {:induction false} OnePull(rows: seq<Row>, c: Client, s: Stream, n: nat)
    ensures Pulls(rows, c, s, 0) == (c, s)
    ensures var (c', s') := Pulls(rows, c, s, n); Pulls(rows, c, s, n + 1) == PullMove(rows, c', s')
  {
  }

  const FIVE: Event := Event(5, "")
  const SIX: Event := Event(6, "")
  const SEVEN: Event := Event(7, "")

  lemma {:induction false} ReadsSixAndSeven()
    ensures var events := [FIVE, SIX, SEVEN];
      && PlanReplay(events, Some(5)) == Pages(7)
      && Between(events, 5, 7) == [SIX, SEVEN]
  {
    var events := [FIVE, SIX, SEVEN];
    LatestOfThree();
    assert Earliest([SEVEN]) == Some(7) && events[1..] == [SIX, SEVEN] && [SIX, SEVEN][1..] == [SEVEN];
    assert Earliest([SIX, SEVEN]) == Some(6);
    assert events[..2] == [FIVE, SIX] && [FIVE, SIX][..1] == [FIVE] && [FIVE][..0] == [];
    assert Between([FIVE], 5, 7) == [] && Between([FIVE, SIX], 5, 7) == [] + [SIX] == [SIX];
  }

  lemma {:induction false} LatestOfThree()
    ensures Latest([FIVE]) == 5 && Latest([FIVE, SIX]) == 6 && Latest([FIVE, SIX, SEVEN]) == 7
  {
    assert [FIVE, SIX, SEVEN][..2] == [FIVE, SIX] && [FIVE, SIX][..1] == [FIVE] && [FIVE][..0] == [];
  }

  /** The first four pulls connect, read the bounds and page 6 and 7 in. */
  lemma {:induction false} PullsPage(rows: seq<Row>, c: Client, s: Stream)
    requires Events(rows) == [FIVE, SIX, SEVEN] && s == NewStream(Some(5), 5)
    ensures Pulls(rows, c, s, 4) ==
      (c, s.(first := false, bound := 7, pending := [SIX, SEVEN], phase := Waiting))
  {
    hide Pulls, Between, PlanReplay;
    ReadsSixAndSeven();
    OnePull(rows, c, s, 0);
    OnePull(rows, c, s, 1);
    OnePull(rows, c, s, 2);
    OnePull(rows, c, s, 3);
    assert ReadAfter(rows, 5, 7, PAGE) == [SIX, SEVEN] && [] + [SIX, SEVEN] == [SIX, SEVEN];
  }

  /** The next three emit 6 and 7. */
  lemma {:induction false} PullsReplay(rows: seq<Row>, c: Client, s: Stream)
    requires !s.first && s.phase == Waiting && s.emitted == [] && s.pending == [SIX, SEVEN]
    ensures Pulls(rows, c, s, 3) == (c, s.(lastSent := 7, pending := [], phase := Idle, emitted := [SIX, SEVEN]))
  {
    hide Pulls;
    OnePull(rows, c, s, 0);
    OnePull(rows, c, s, 1);
    OnePull(rows, c, s, 2);
    assert [SIX, SEVEN][1..] == [SEVEN] && [SEVEN][1..] == [];
    assert [] + [SIX] == [SIX] && [SIX] + [SEVEN] == [SIX, SEVEN];
  }

  /** The last four skip the queued 6, which lowers the last sent sequence, and send 7 again. */
  lemma {:induction false} PullsSkip(rows: seq<Row>, c: Client, s: Stream)
    requires !s.first && s.phase == Idle && s.lastSent == 7 && s.pending == [] && s.emitted == [SIX, SEVEN]
    requires c.box.items == [SIX, SEVEN]
    ensures Pulls(rows, c, s, 4).1 == s.(lastSent := 7, phase := Idle, emitted := [SIX, SEVEN, SEVEN])
    ensures Pulls(rows, c, s, 4).0.received == c.received + [SIX, SEVEN]
  {
    hide Pulls;
    OnePull(rows, c, s, 0);
    OnePull(rows, c, s, 1);
    OnePull(rows, c, s, 2);
    OnePull(rows, c, s, 3);
    assert [SIX, SEVEN][1..] == [SEVEN];
    assert [SIX, SEVEN] + [SEVEN] == [SIX, SEVEN, SEVEN];
    assert c.received + [SIX] + [SEVEN] == c.received + [SIX, SEVEN];
  }

  lemma {:induction false} PullsSplit(rows: seq<Row>, c: Client, s: Stream, m: nat, n: nat)
    ensures Pulls(rows, c, s, m + n) == Pulls(rows, Pulls(rows, c, s, m).0, Pulls(rows, c, s, m).1, n)
  {
    hide PullMove;
    if n > 0 { PullsSplit(rows, c, s, m, n - 1); }
  }

  /** The rows of 6 and 7, as claimed or marked. */
  function Three(claim: Option<Lease>, attempts: nat, six: bool, seven: bool): seq<Row> {
    AT_BOOT + [Row(SIX, if six then None else claim, six, attempts), Row(SEVEN, if seven then None else claim, seven, attempts)]
  }

  lemma {:induction false} EventsOfThree(claim: Option<Lease>, attempts: nat, six: bool, seven: bool)
    ensures Events(Three(claim, attempts, six, seven)) == [FIVE, SIX, SEVEN]
  {
  }

  lemma {:induction false} TwoAreCommitted()
    ensures SysRun(AT_BOOT, QUEUED[..3], SIZES) ==
      Sys(Three(None, 0, false, false), [], EMPTY.(clients := [NewClient(Some(5), 10, 0)]), [NewStream(Some(5), 5)])
  {
    hide SysRun;
    var connect, commit := Connect(Some(5)), Commit(0, "");
    assert QUEUED[..3] == [connect, commit] + [commit] && [connect, commit] == [connect] + [commit] && [connect] == [] + [connect];
    BootState();
    SysRunAppend(AT_BOOT, [], connect, SIZES);
    SysRunAppend(AT_BOOT, [connect], commit, SIZES);
    SysRunAppend(AT_BOOT, [connect, commit], commit, SIZES);
    LatestOfThree();
    assert Events(AT_BOOT) == [FIVE] && Events(AT_BOOT + [Row(SIX, None, false, 0)]) == [FIVE, SIX];
    assert AT_BOOT + [Row(SIX, None, false, 0)] + [Row(SEVEN, None, false, 0)] == Three(None, 0, false, false);
    assert [] + [NewClient(Some(5), 10, 0)] == [NewClient(Some(5), 10, 0)];
    assert [] + [NewStream(Some(5), 5)] == [NewStream(Some(5), 5)];
  }

  lemma {:induction false} BootState()
    ensures SysRun(AT_BOOT, [], SIZES) == Boot(AT_BOOT)
  {
  }

  lemma {:induction false} TwoAreClaimed()
    ensures ClaimBatch(Three(None, 0, false, false), LEASE_SECONDS, 0, RELAY, RELAY_BATCH, {}) ==
      (Three(Some(Lease(0, RELAY)), 1, false, false), [SIX, SEVEN])
  {
    var rows := Three(None, 0, false, false);
    var cutoff := 0 - LEASE_SECONDS;
    assert rows[..2][..1] == AT_BOOT && AT_BOOT[..0] == [];
    assert ClaimableEvents(AT_BOOT, cutoff, {}) == [];
    assert ClaimableEvents(rows[..2], cutoff, {}) == [] + [SIX] == [SIX];
    assert ClaimableEvents(rows, cutoff, {}) == [SIX] + [SEVEN] == [SIX, SEVEN];
    hide ClaimableEvents;
    var batch := [SIX, SEVEN];
    assert batch[0] in batch && batch[1] in batch;
    var after := ClaimBatch(rows, LEASE_SECONDS, 0, RELAY, RELAY_BATCH, {}).0;
    assert after == Three(Some(Lease(0, RELAY)), 1, false, false);
  }

  lemma {:induction false} PublishToRoom(b: Broker, e: Event, c: Client)
    requires b.clients == [c] && e.sequence !in b.seen
    requires c.subscribed && !c.box.closed && c.box.capacity == 10 && e.sequence > c.cursor && |c.box.items| + 1 < 10
    ensures var b' := Publish(b, e, SIZES);
      && b'.clients == [c.(box := c.box.(items := c.box.items + [e]), cursor := e.sequence)]
      && (|b.order| < WINDOW ==> b'.order == b.order + [e.sequence] && b'.seen == b.seen + {e.sequence})
  {
  }

  lemma {:induction false} TwoArePublished()
    ensures var y := SysRun(AT_BOOT, QUEUED, SIZES);
      && Events(y.rows) == [FIVE, SIX, SEVEN] && y.streams == [NewStream(Some(5), 5)]
      && |y.broker.clients| == 1 && y.broker.clients[0].box.items == [SIX, SEVEN] && y.broker.clients[0].received == []
  {
    hide SysRun, ClaimBatch, Publish, Events, MarkPublished;
    var claim, publish := RelayClaim(0), RelayPublish(true);
    assert QUEUED == QUEUED[..5] + [publish] && QUEUED[..5] == QUEUED[..4] + [publish] && QUEUED[..4] == QUEUED[..3] + [claim];
    TwoAreCommitted();
    TwoAreClaimed();
    SysRunAppend(AT_BOOT, QUEUED[..3], claim, SIZES);
    SysRunAppend(AT_BOOT, QUEUED[..4], publish, SIZES);
    SysRunAppend(AT_BOOT, QUEUED[..5], publish, SIZES);
    var rows := Three(Some(Lease(0, RELAY)), 1, false, false);
    EventsOfThree(Some(Lease(0, RELAY)), 1, false, false);
    MarkKeepsEvents(rows, 6);
    MarkKeepsEvents(MarkPublished(rows, 6, RELAY), 7);
    assert [SIX, SEVEN][1..] == [SEVEN] && [SEVEN][1..] == [];
    var c := NewClient(Some(5), 10, 0);
    var b := EMPTY.(clients := [c]);
    var c' := c.(box := c.box.(items := [SIX]), cursor := 6);
    PublishToRoom(b, SIX, c);
    assert [] + [SIX] == [SIX] && [SIX] + [SEVEN] == [SIX, SEVEN];
    PublishToRoom(Publish(b, SIX, SIZES), SEVEN, c');
  }

  lemma {:induction false} MarkKeepsEvents(rows: seq<Row>, sequence: int)
    ensures Events(MarkPublished(rows, sequence, RELAY)) == Events(rows)
  {
  }

  /**
   The stream covers but is not exactly-once: a run in which a client connects after 5 while 6 and 7 are
   committed and queued, the replay emits both, and 7 is sent again.
   */
  lemma {:induction false} SkipCausesRepeat()
    ensures var y := SysRun(AT_BOOT, QUEUED + Pulling(11), SIZES);
      && |y.streams| == 1 && |y.broker.clients| == 1 && y.streams[0].emitted == [SIX, SEVEN, SEVEN]
      && y.broker.clients[0].received == [SIX, SEVEN]
  {
    hide SysRun, Pulls;
    TwoArePublished();
    PullsRun(AT_BOOT, QUEUED, 11, SIZES);
    var y := SysRun(AT_BOOT, QUEUED, SIZES);
    var c, s := y.broker.clients[0], y.streams[0];
    var paged := s.(first := false, bound := 7, pending := [SIX, SEVEN], phase := Waiting);
    var replayed := paged.(lastSent := 7, pending := [], phase := Idle, emitted := [SIX, SEVEN]);
    PullsPage(y.rows, c, s);
    PullsReplay(y.rows, c, paged);
    PullsSkip(y.rows, c, replayed);
    PullsSplit(y.rows, c, s, 4, 3);
    PullsSplit(y.rows, c, s, 7, 4);
  }
}
