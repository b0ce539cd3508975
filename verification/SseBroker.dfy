/**
 Fan-out of committed events to server-sent-event clients: a bounded window of seen sequences against
 crash retries, a replay ring, and one bounded mailbox with a cursor per client.
 `publish` never waits, so each call is one step.
 */
module SseBroker {
  import opened Arith
  import opened Options
  import opened Mailbox
  import opened Outbox

  const WINDOW: nat := 2000

  /**
   A client's mailbox and cursor as the broker keeps them; what its consumer has taken out, where its
   cursor started, and how many publications had been accepted before it subscribed.
   */
  datatype Client = Client(
    box: Box<Event>, cursor: int, subscribed: bool, received: seq<Event>, floor: int, since: nat)

  /** The publications accepted so far are the history behind the window and the ring. */
  datatype Broker = Broker(
    order: seq<int>, seen: set<int>, latest: int, ring: seq<Event>, clients: seq<Client>,
    published: seq<Event>)

  datatype Sizes = Sizes(replay: nat, queue: nat)

  const EMPTY: Broker := Broker([], {}, 0, [], [], [])

  function NeverLossy(): Event -> bool { (_: Event) => false }

  function Deliver(c: Client, e: Event, queue: nat): Client {
    if !c.subscribed || e.sequence <= c.cursor then c
    else if |c.box.items| >= queue then c.(box := Close(c.box))
    else c.(box := PutLossy(c.box, e, NeverLossy()).0, cursor := e.sequence)
  }

  /** Only clients with room, or with nothing queued, stay subscribed. */
  function Retain(c: Client, queue: nat): Client {
    c.(subscribed := c.subscribed && (|c.box.items| < queue || c.box.items == []))
  }

  function FanOut(clients: seq<Client>, e: Event, queue: nat): (r: seq<Client>)
    ensures |r| == |clients| && forall i | 0 <= i < |r| :: r[i] == Retain(Deliver(clients[i], e, queue), queue)
  {
    seq(|clients|, i requires 0 <= i < |clients| => Retain(Deliver(clients[i], e, queue), queue))
  }

  function LastOf<T>(s: seq<T>, n: nat): seq<T> { if |s| <= n then s else s[|s| - n..] }

  function Publish(b: Broker, e: Event, sizes: Sizes): Broker {
    if e.sequence in b.seen then b else
    var full := |b.order| >= WINDOW;
    b.(order := (if full then b.order[1..] else b.order) + [e.sequence],
       seen := (if full then b.seen - {b.order[0]} else b.seen) + {e.sequence},
       latest := Max(b.latest, e.sequence),
       ring := LastOf(b.ring + [e], sizes.replay),
       clients := FanOut(b.clients, e, sizes.queue),
       published := b.published + [e])
  }

  function NewClient(after: Option<int>, queue: nat, since: nat): Client {
    var cursor := if after.Some? then after.value else 0;
    Client(Box([], queue, 0, false), cursor, true, [], cursor, since)
  }

  datatype Action =
    | DoPublish(event: Event)
    | Subscribe(after: Option<int>)
    | Unsubscribe(client: nat)
    | Advance(client: nat, sequence: int)
    | Consume(client: nat)

  function OnClient(b: Broker, i: nat, c: Client): Broker
    requires i < |b.clients|
  {
    b.(clients := b.clients[i := c])
  }

  function Consumed(c: Client): Client {
    var (box, e) := Take(c.box);
    if e.Some? then c.(box := box, received := c.received + [e.value]) else c
  }

  function Step(b: Broker, a: Action, sizes: Sizes): Broker {
    match a
    case DoPublish(e) => Publish(b, e, sizes)
    case Subscribe(after) => b.(clients := b.clients + [NewClient(after, sizes.queue, |b.published|)])
    case Unsubscribe(i) => if i < |b.clients| then OnClient(b, i, b.clients[i].(subscribed := false)) else b
    case Advance(i, sequence) =>
      if i < |b.clients| && b.clients[i].subscribed
      then OnClient(b, i, b.clients[i].(cursor := Max(b.clients[i].cursor, sequence))) else b
    case Consume(i) => if i < |b.clients| then OnClient(b, i, Consumed(b.clients[i])) else b
  }

  function Run(b: Broker, actions: seq<Action>, sizes: Sizes): Broker {
    if actions == [] then b
    else Step(Run(b, actions[..|actions| - 1], sizes), actions[|actions| - 1], sizes)
  }

  // ---------------------------------------------- seen window, replay ring

  /** Equal sequences are accepted only more than a whole window apart. */
  ghost predicate Spaced(published: seq<Event>) {
    forall i, j | 0 <= i < j < |published| ::
      published[i].sequence == published[j].sequence ==> j - i > WINDOW
  }

  ghost predicate WindowInv(b: Broker, replay: nat) {
    && |b.order| == Min(|b.published|, WINDOW)
    && (forall k | 0 <= k < |b.order| :: b.order[k] == b.published[|b.published| - |b.order| + k].sequence)
    && (forall x :: x in b.seen <==> x in b.order)
    && b.ring == LastOf(b.published, replay)
    && Spaced(b.published)
  }

  /** A sequence outside the window was last accepted more than a window ago. */
  lemma {:induction false} UnseenIsSpaced(b: Broker, e: Event, replay: nat)
    requires WindowInv(b, replay) && e.sequence !in b.seen
    ensures Spaced(b.published + [e])
  {
    var n := |b.published|;
    forall i | n - |b.order| <= i < n ensures b.published[i].sequence in b.order {
      assert b.order[i - (n - |b.order|)] == b.published[i].sequence;
    }
  }

  /** Dropping the oldest of distinct sequences and adding a new one. */
  lemma {:induction false} WindowShifts(order: seq<int>, seen: set<int>, x: int)
    requires forall y :: y in seen <==> y in order
    requires forall i, j | 0 <= i < j < |order| :: order[i] != order[j]
    requires order != []
    ensures forall y :: y in seen - {order[0]} + {x} <==> y in order[1..] + [x]
  {
    assert order == [order[0]] + order[1..];
    assert order[0] !in order[1..];
  }

  lemma {:induction false} OrderIsDistinct(b: Broker, replay: nat)
    requires WindowInv(b, replay)
    ensures forall i, j | 0 <= i < j < |b.order| :: b.order[i] != b.order[j]
  {
  }

  lemma {:induction false} PublishKeepsWindow(b: Broker, e: Event, sizes: Sizes)
    requires WindowInv(b, sizes.replay)
    ensures WindowInv(Publish(b, e, sizes), sizes.replay)
  {
    hide FanOut, Spaced, LastOf;
    if e.sequence !in b.seen {
      RingShifts(b.published, e, sizes.replay);
      UnseenIsSpaced(b, e, sizes.replay);
      OrderIsDistinct(b, sizes.replay);
      if |b.order| >= WINDOW { WindowShifts(b.order, b.seen, e.sequence); }
    }
  }

  lemma {:induction false} RingShifts(published: seq<Event>, e: Event, replay: nat)
    ensures LastOf(LastOf(published, replay) + [e], replay) == LastOf(published + [e], replay)
  {
  }

  lemma {:induction false} StepKeepsWindow(b: Broker, a: Action, sizes: Sizes)
    requires WindowInv(b, sizes.replay)
    ensures WindowInv(Step(b, a, sizes), sizes.replay)
  {
    if a.DoPublish? { PublishKeepsWindow(b, a.event, sizes); }
  }

  lemma {:induction false} RunKeepsWindow(actions: seq<Action>, sizes: Sizes)
    ensures WindowInv(Run(EMPTY, actions, sizes), sizes.replay)
  {
    if actions != [] {
      RunKeepsWindow(actions[..|actions| - 1], sizes);
      StepKeepsWindow(Run(EMPTY, actions[..|actions| - 1], sizes), actions[|actions| - 1], sizes);
    }
  }

  /**
   After any actions the seen list and set agree and hold at most 2000 distinct sequences, and the
   ring holds the latest publications, without a repeat as long as it is at most one longer than the window.
   */
  lemma {:induction false} SeenWindowAndRing(actions: seq<Action>, sizes: Sizes)
    ensures var b := Run(EMPTY, actions, sizes);
      && |b.order| <= WINDOW
      && (forall x :: x in b.seen <==> x in b.order)
      && (forall i, j | 0 <= i < j < |b.order| :: b.order[i] != b.order[j])
      && |b.ring| <= sizes.replay
      && (sizes.replay <= WINDOW + 1 ==>
            forall i, j | 0 <= i < j < |b.ring| :: b.ring[i].sequence != b.ring[j].sequence)
  {
    RunKeepsWindow(actions, sizes);
  }

  /** Over any run the latest sequence is the greatest one accepted, or 0 if none is above that. */
  lemma {:induction false} LatestIsGreatest(actions: seq<Action>, sizes: Sizes)
    ensures var b := Run(EMPTY, actions, sizes);
      && b.latest >= 0 && (forall e <- b.published :: e.sequence <= b.latest)
      && (b.latest == 0 || exists e <- b.published :: e.sequence == b.latest)
  {
    hide FanOut, LastOf;
    if actions != [] {
      var front, a := actions[..|actions| - 1], actions[|actions| - 1];
      LatestIsGreatest(front, sizes);
      var b, after := Run(EMPTY, front, sizes), Run(EMPTY, actions, sizes);
      if after.published != b.published {
        assert after.published == b.published + [a.event];
        assert a.event in after.published;
        forall e <- b.published ensures e in after.published {}
      }
    }
  }

  function Counting(n: nat): seq<Action> { seq(n, i => DoPublish(Event(i + 1, ""))) }

  lemma {:induction false} RunAppend(actions: seq<Action>, a: Action, sizes: Sizes)
    ensures Run(EMPTY, actions + [a], sizes) == Step(Run(EMPTY, actions, sizes), a, sizes)
    ensures Run(EMPTY, [], sizes) == EMPTY
  {
    assert (actions + [a])[..|actions|] == actions;
  }

  lemma {:induction false} NotYetSeen(b: Broker, n: nat, replay: nat)
    requires WindowInv(b, replay) && b.published == seq(n, i => Event(i + 1, ""))
    ensures n + 1 !in b.seen
  {
  }

  lemma {:induction false} CountingIsAccepted(n: nat, sizes: Sizes)
    ensures Run(EMPTY, Counting(n), sizes).published == seq(n, i => Event(i + 1, ""))
  {
    hide Run, WindowInv, FanOut, LastOf;
    if n == 0 {
      RunAppend([], Consume(0), sizes);
      assert Counting(0) == [];
    } else {
      CountingIsAccepted(n - 1, sizes);
      RunKeepsWindow(Counting(n - 1), sizes);
      NotYetSeen(Run(EMPTY, Counting(n - 1), sizes), n - 1, sizes.replay);
      assert Counting(n) == Counting(n - 1) + [DoPublish(Event(n, ""))];
      RunAppend(Counting(n - 1), DoPublish(Event(n, "")), sizes);
    }
  }

  ghost predicate RepeatFree(ring: seq<Event>) {
    forall i, j | 0 <= i < j < |ring| :: ring[i].sequence != ring[j].sequence
  }

  /** One longer than the window and one: publish 1 to 2001, then 1 again, which has left the window but not the ring. */
  lemma {:induction false} LongerRingCanRepeat(sizes: Sizes)
    requires sizes.replay >= WINDOW + 2
    ensures var b := Run(EMPTY, Counting(WINDOW + 1) + [DoPublish(Event(1, ""))], sizes);
      |b.ring| == WINDOW + 2 && b.ring[0] == b.ring[WINDOW + 1] == Event(1, "")
  {
    hide Run, FanOut;
    var first := Counting(WINDOW + 1);
    var b := Run(EMPTY, first, sizes);
    CountingIsAccepted(WINDOW + 1, sizes);
    RunKeepsWindow(first, sizes);
    RunKeepsWindow(first + [DoPublish(Event(1, ""))], sizes);
    RunAppend(first, DoPublish(Event(1, "")), sizes);
    assert 1 !in b.seen;
  }

  /** The ring never holds a sequence twice, in any run, if and only if it is at most one longer than the window. */
  lemma {:induction false} RingIsRepeatFreeIff(sizes: Sizes)
    ensures (forall actions :: RepeatFree(Run(EMPTY, actions, sizes).ring)) <==> sizes.replay <= WINDOW + 1
  {
    hide Run;
    if sizes.replay <= WINDOW + 1 {
      forall actions ensures RepeatFree(Run(EMPTY, actions, sizes).ring) { SeenWindowAndRing(actions, sizes); }
    } else {
      LongerRingCanRepeat(sizes);
      assert !RepeatFree(Run(EMPTY, Counting(WINDOW + 1) + [DoPublish(Event(1, ""))], sizes).ring);
    }
  }

  // ------------------------------------------------------ what a client gets

  /** Everything put into the client's mailbox, in order. */
  function Got(c: Client): seq<Event> { c.received + c.box.items }

  ghost predicate ClientInv(c: Client, queue: nat) {
    && c.box.capacity == queue && |c.box.items| <= queue
    && Ascending(Got(c))
    && c.floor <= c.cursor
    && forall e <- Got(c) :: c.floor < e.sequence <= c.cursor
  }

  ghost predicate AllClients(b: Broker, queue: nat) {
    forall i | 0 <= i < |b.clients| :: ClientInv(b.clients[i], queue)
  }

  lemma {:induction false} OfferKeepsInv(c: Client, e: Event, queue: nat)
    requires ClientInv(c, queue)
    ensures ClientInv(Retain(Deliver(c, e, queue), queue), queue)
  {
    var after := Deliver(c, e, queue);
    if Got(after) != Got(c) {
      assert Got(after) == Got(c) + [e];
      AscendingAppend(Got(c), e);
    }
  }

  lemma {:induction false} StepKeepsClients(b: Broker, a: Action, sizes: Sizes)
    requires AllClients(b, sizes.queue)
    ensures AllClients(Step(b, a, sizes), sizes.queue)
  {
    match a
    case DoPublish(e) =>
      hide ClientInv;
      forall i | 0 <= i < |b.clients| ensures ClientInv(FanOut(b.clients, e, sizes.queue)[i], sizes.queue) {
        OfferKeepsInv(b.clients[i], e, sizes.queue);
      }
    case Consume(i) => if i < |b.clients| { assert Got(Consumed(b.clients[i])) == Got(b.clients[i]); }
    case _ =>
  }

  /**
   Whatever the publish order, each client's mailbox receives strictly increasing sequences above
   the cursor it subscribed with, and never more at once than its capacity.
   */
  lemma {:induction false} ClientsSeeIncreasingSequences(actions: seq<Action>, sizes: Sizes)
    ensures AllClients(Run(EMPTY, actions, sizes), sizes.queue)
  {
    if actions != [] {
      ClientsSeeIncreasingSequences(actions[..|actions| - 1], sizes);
      StepKeepsClients(Run(EMPTY, actions[..|actions| - 1], sizes), actions[|actions| - 1], sizes);
    }
  }

  // --------------------------------------------- no holes when publishes ascend

  ghost function Above(events: seq<Event>, floor: int): seq<Event> {
    if events == [] then [] else
    var n := |events| - 1;
    Above(events[..n], floor) + (if events[n].sequence > floor then [events[n]] else [])
  }

  /** What a client would get if nothing were ever dropped. */
  ghost function Owed(b: Broker, c: Client): seq<Event>
    requires c.since <= |b.published|
  {
    Above(b.published[c.since..], c.floor)
  }

  ghost predicate Gapless(b: Broker, c: Client) {
    && c.since <= |b.published|
    && Got(c) <= Owed(b, c)
    && (c.subscribed && !c.box.closed ==>
          && Got(c) == Owed(b, c)
          && c.cursor == (if Got(c) == [] then c.floor else Got(c)[|Got(c)| - 1].sequence))
  }

  lemma {:induction false} AboveIsPart(events: seq<Event>, floor: int)
    ensures forall e <- Above(events, floor) :: e in events
  {
    if events != [] { AboveIsPart(events[..|events| - 1], floor); }
  }

  lemma {:induction false} OwedGrows(b: Broker, c: Client, e: Event, sizes: Sizes)
    requires c.since <= |b.published| && e.sequence !in b.seen
    ensures var after := Publish(b, e, sizes);
      && after.published[c.since..] == b.published[c.since..] + [e]
      && Owed(after, c) == Owed(b, c) + (if e.sequence > c.floor then [e] else [])
  {
    hide FanOut;
    var s := b.published[c.since..];
    assert (b.published + [e])[c.since..] == s + [e];
    assert (s + [e])[..|s|] == s;
  }

  /** An open subscribed client's cursor is passed exactly by new sequences above its floor. */
  lemma {:induction false} CursorIsLastOwed(b: Broker, c: Client, e: Event)
    requires Gapless(b, c) && c.subscribed && !c.box.closed && c.floor <= c.cursor
    requires Ascending(b.published[c.since..] + [e])
    ensures e.sequence > c.cursor <==> e.sequence > c.floor
  {
    var s := b.published[c.since..];
    AboveIsPart(s, c.floor);
    if Got(c) != [] {
      var last := Got(c)[|Got(c)| - 1];
      assert last in Owed(b, c);
      var i :| 0 <= i < |s| && s[i] == last;
      assert (s + [e])[i].sequence < (s + [e])[|s|].sequence;
    }
  }

  lemma {:induction false} DeliverGets(c: Client, e: Event, queue: nat)
    requires ClientInv(c, queue)
    ensures var after := Deliver(c, e, queue);
      if c.subscribed && !c.box.closed && e.sequence > c.cursor && |c.box.items| < queue
      then after == c.(box := after.box, cursor := e.sequence) && !after.box.closed && Got(after) == Got(c) + [e]
      else Got(after) == Got(c) && (c.subscribed && !c.box.closed && e.sequence > c.cursor ==> after.box.closed)
           && (c.subscribed && e.sequence <= c.cursor ==> after == c)
           && after == c.(box := after.box, cursor := after.cursor) && (c.box.closed ==> after.box.closed)
  {
    if c.subscribed && !c.box.closed && e.sequence > c.cursor && |c.box.items| < queue {
      assert Got(Deliver(c, e, queue)) == Got(c) + [e];
    }
  }

  lemma {:induction false} PublishKeepsGapless(b: Broker, c: Client, e: Event, sizes: Sizes)
    requires Gapless(b, c) && ClientInv(c, sizes.queue) && e.sequence !in b.seen
    requires Ascending(b.published[c.since..] + [e])
    ensures Gapless(Publish(b, e, sizes), Retain(Deliver(c, e, sizes.queue), sizes.queue))
  {
    hide Deliver, Ascending, Above, FanOut;
    OwedGrows(b, c, e, sizes);
    DeliverGets(c, e, sizes.queue);
    if c.subscribed && !c.box.closed { CursorIsLastOwed(b, c, e); }
  }

  /** The broker's clients under a step, matched up by number. */
  lemma {:induction false} StepKeepsGapless(b: Broker, a: Action, i: nat, sizes: Sizes)
    requires i < |b.clients| && Gapless(b, b.clients[i]) && ClientInv(b.clients[i], sizes.queue)
    requires !(a.Advance? && a.client == i)
    requires var after := Step(b, a, sizes);
      b.clients[i].since <= |after.published| && Ascending(after.published[b.clients[i].since..])
    ensures var after := Step(b, a, sizes);
      i < |after.clients| && after.clients[i].since == b.clients[i].since && Gapless(after, after.clients[i])
  {
    hide Deliver, Retain, Ascending, Gapless, Owed, ClientInv;
    var c := b.clients[i];
    match a
    case DoPublish(e) =>
      if e.sequence !in b.seen {
        SinceStays(b, c, e, sizes.queue);
        OwedGrows(b, c, e, sizes);
        PublishKeepsGapless(b, c, e, sizes);
      }
    case Consume(j) => if j == i { ConsumedIsGapless(b, c, Step(b, a, sizes)); } else { SameIsGapless(b, c, Step(b, a, sizes), c); }
    case _ => SameIsGapless(b, c, Step(b, a, sizes), Step(b, a, sizes).clients[i]);
  }

  lemma {:induction false} SinceStays(b: Broker, c: Client, e: Event, queue: nat)
    requires Gapless(b, c)
    ensures c.since <= |b.published| && Retain(Deliver(c, e, queue), queue).since == c.since
  {
  }

  lemma {:induction false} ConsumedIsGapless(b: Broker, c: Client, b': Broker)
    requires Gapless(b, c) && b'.published == b.published
    ensures Gapless(b', Consumed(c))
  {
    assert Got(Consumed(c)) == Got(c);
  }

  lemma {:induction false} SameIsGapless(b: Broker, c: Client, b': Broker, c': Client)
    requires Gapless(b, c) && b'.published == b.published
    requires c' == c || c' == c.(subscribed := false)
    ensures Gapless(b', c')
  {
  }

  function Since(b: Broker, since: nat): seq<Event> {
    if since <= |b.published| then b.published[since..] else []
  }

  lemma {:induction false} SinceStaysAscending(b: Broker, a: Action, since: nat, sizes: Sizes)
    requires Ascending(Since(Step(b, a, sizes), since))
    ensures Ascending(Since(b, since))
  {
    var after := Step(b, a, sizes);
    assert after.published == b.published || exists e :: after.published == b.published + [e];
    forall i, j | 0 <= i < j < |Since(b, since)| ensures Since(b, since)[i].sequence < Since(b, since)[j].sequence {
      assert Since(after, since)[i] == Since(b, since)[i] && Since(after, since)[j] == Since(b, since)[j];
    }
  }

  /**
   When sequences are published in ascending order from the client's subscription on, the client has
   got an exact, hole-free prefix of the publications above its cursor: all of them while it stays
   subscribed and open.
   */
  lemma {:induction false} ClientGetsHoleFreePrefix(
    first: seq<Action>, after: Option<int>, rest: seq<Action>, sizes: Sizes)
    requires var b := Run(EMPTY, first, sizes);
      && Ascending(Since(Run(Step(b, Subscribe(after), sizes), rest, sizes), |b.published|))
      && forall a <- rest :: !(a.Advance? && a.client == |b.clients|)
    ensures var b := Run(EMPTY, first, sizes);
      var end := Run(Step(b, Subscribe(after), sizes), rest, sizes);
      var i := |b.clients|;
      && i < |end.clients| && end.clients[i].since == |b.published|
      && ClientInv(end.clients[i], sizes.queue) && Gapless(end, end.clients[i])
      && |b.published| <= |end.published|
  {
    hide ClientInv, Gapless;
    var b := Run(EMPTY, first, sizes);
    var start := Step(b, Subscribe(after), sizes);
    if rest == [] {
      ClientsSeeIncreasingSequences(first, sizes);
      StepKeepsClients(b, Subscribe(after), sizes);
      NewClientIsGapless(b, after, sizes);
      assert ClientInv(start.clients[|b.clients|], sizes.queue);
    } else {
      var front, a := rest[..|rest| - 1], rest[|rest| - 1];
      var before := Run(start, front, sizes);
      SinceStaysAscending(before, a, |b.published|, sizes);
      ClientGetsHoleFreePrefix(first, after, front, sizes);
      StepKeepsGapless(before, a, |b.clients|, sizes);
      StepKeepsOneClient(before, a, |b.clients|, sizes);
    }
  }

  lemma {:induction false} NewClientIsGapless(b: Broker, after: Option<int>, sizes: Sizes)
    ensures Gapless(Step(b, Subscribe(after), sizes), NewClient(after, sizes.queue, |b.published|))
  {
  }

  lemma {:induction false} StepKeepsOneClient(b: Broker, a: Action, i: nat, sizes: Sizes)
    requires i < |b.clients| && ClientInv(b.clients[i], sizes.queue)
    ensures i < |Step(b, a, sizes).clients| && ClientInv(Step(b, a, sizes).clients[i], sizes.queue)
  {
    match a
    case DoPublish(e) => OfferKeepsInv(b.clients[i], e, sizes.queue);
    case Consume(j) => if j == i { assert Got(Consumed(b.clients[i])) == Got(b.clients[i]); }
    case _ =>
  }

  // ----------------------------------------------------- how a client is dropped

  /** The mailbox is open, and has room as long as the broker keeps the client. */
  ghost predicate OpenWithRoom(c: Client, queue: nat) {
    !c.box.closed && (c.subscribed ==> |c.box.items| < queue)
  }

  ghost predicate AllOpen(b: Broker, queue: nat) {
    forall i | 0 <= i < |b.clients| :: OpenWithRoom(b.clients[i], queue)
  }

  lemma {:induction false} DeliverKeepsOpen(c: Client, e: Event, queue: nat)
    requires queue > 0 && OpenWithRoom(c, queue) && ClientInv(c, queue)
    ensures OpenWithRoom(Retain(Deliver(c, e, queue), queue), queue)
    ensures c.subscribed && !Retain(Deliver(c, e, queue), queue).subscribed <==>
            c.subscribed && e.sequence > c.cursor && |c.box.items| + 1 == queue
  {
  }

  lemma {:induction false} StepKeepsOpen(b: Broker, a: Action, sizes: Sizes)
    requires sizes.queue > 0 && AllOpen(b, sizes.queue) && AllClients(b, sizes.queue)
    ensures AllOpen(Step(b, a, sizes), sizes.queue)
  {
    match a
    case DoPublish(e) =>
      hide ClientInv, OpenWithRoom;
      forall i | 0 <= i < |b.clients| ensures OpenWithRoom(FanOut(b.clients, e, sizes.queue)[i], sizes.queue) {
        DeliverKeepsOpen(b.clients[i], e, sizes.queue);
      }
    case _ =>
  }

  /**
   With a queue size above zero the broker never closes a mailbox, in any run: every client it still
   keeps has room, so the branch of `fan_out` that closes a full one is not reached.
   */
  lemma {:induction false} NoMailboxIsEverClosed(actions: seq<Action>, sizes: Sizes)
    requires sizes.queue > 0
    ensures AllOpen(Run(EMPTY, actions, sizes), sizes.queue)
  {
    if actions != [] {
      NoMailboxIsEverClosed(actions[..|actions| - 1], sizes);
      ClientsSeeIncreasingSequences(actions[..|actions| - 1], sizes);
      StepKeepsOpen(Run(EMPTY, actions[..|actions| - 1], sizes), actions[|actions| - 1], sizes);
    }
  }

  /** With a queue size of zero the first event above a client's cursor closes it. */
  lemma {:induction false} ZeroQueueCloses(c: Client, e: Event)
    requires c.subscribed && c.box.items == [] && e.sequence > c.cursor
    ensures Retain(Deliver(c, e, 0), 0).box.closed && Retain(Deliver(c, e, 0), 0).subscribed
  {
  }

  /**
   In every run, a publish drops a client if and only if its event is new, above the client's cursor, and
   takes the last place in its queue. The client is not closed or told, and gets nothing more.
   */
  lemma {:induction false} PublishDropsExactlyTheJustFull(actions: seq<Action>, sizes: Sizes, e: Event, i: nat)
    requires sizes.queue > 0 && i < |Run(EMPTY, actions, sizes).clients|
    requires Run(EMPTY, actions, sizes).clients[i].subscribed
    ensures var b := Run(EMPTY, actions, sizes);
      var c, after := b.clients[i], Publish(b, e, sizes).clients[i];
      && !after.box.closed
      && (!after.subscribed <==> e.sequence !in b.seen && e.sequence > c.cursor && |c.box.items| + 1 == sizes.queue)
      && (!after.subscribed ==>
            Got(after) == Got(c) + [e] && forall later :: Publish(Publish(b, e, sizes), later, sizes).clients[i] == after)
  {
    var b := Run(EMPTY, actions, sizes);
    NoMailboxIsEverClosed(actions, sizes);
    ClientsSeeIncreasingSequences(actions, sizes);
    DeliverKeepsOpen(b.clients[i], e, sizes.queue);
    DeliverGets(b.clients[i], e, sizes.queue);
  }

  // -------------------------------------------------------------- the broker

  class Service {
    var order: seq<int>
    var seen: set<int>
    var latest: int
    var ring: seq<Event>
    var clients: seq<Client>
    ghost var published: seq<Event>
    const sizes: Sizes

    ghost function State(): Broker
      reads this
    {
      Broker(order, seen, latest, ring, clients, published)
    }

    constructor (sizes: Sizes)
      ensures State() == EMPTY && this.sizes == sizes
    {
      this.sizes := sizes;
      order, seen, latest, ring, clients, published := [], {}, 0, [], [], [];
    }

    method Append(e: Event)
      requires |ring| <= sizes.replay
      modifies this`ring
      ensures ring == LastOf(old(ring) + [e], sizes.replay)
    {
      ring := ring + [e];
      ghost var all := ring;
      while |ring| > sizes.replay
        invariant Min(|all|, sizes.replay) <= |ring| <= |all|
        invariant ring == all[|all| - |ring|..]
      {
        ring := ring[1..];
      }
    }

    /** Offer the event to every client in turn, then drop the full ones. */
    method Broadcast(e: Event)
      modifies this`clients
      ensures clients == FanOut(old(clients), e, sizes.queue)
    {
      for i := 0 to |clients|
        invariant |clients| == |old(clients)|
        invariant forall j | 0 <= j < i :: clients[j] == Deliver(old(clients)[j], e, sizes.queue)
        invariant forall j | i <= j < |clients| :: clients[j] == old(clients)[j]
      {
        var c := clients[i];
        if !c.subscribed || e.sequence <= c.cursor { continue; }
        if |c.box.items| >= sizes.queue {
          clients := clients[i := c.(box := Close(c.box))];
          continue;
        }
        clients := clients[i := c.(box := PutLossy(c.box, e, NeverLossy()).0, cursor := e.sequence)];
      }
      ghost var offered := clients;
      for i := 0 to |clients|
        invariant |clients| == |offered|
        invariant forall j | 0 <= j < i :: clients[j] == Retain(offered[j], sizes.queue)
        invariant forall j | i <= j < |clients| :: clients[j] == offered[j]
      {
        clients := clients[i := Retain(clients[i], sizes.queue)];
      }
    }

    method PublishEvent(e: Event)
      requires |ring| <= sizes.replay
      modifies this
      ensures State() == Publish(old(State()), e, sizes)
    {
      if e.sequence in seen { return; }
      if |order| >= WINDOW {
        seen := seen - {order[0]};
        order := order[1..];
      }
      order := order + [e.sequence];
      seen := seen + {e.sequence};
      latest := Max(latest, e.sequence);
      Append(e);
      Broadcast(e);
      published := published + [e];
    }
  }
}
