/**
 The in-process bus: mailboxes registered by event type or for everything, publishers that deliver
 one target at a time while others publish, subscribe, consume and drop handles in between.
 Mailboxes are numbered in the order they are created.
 */
module EventBus {
  import opened Mailbox

  /** The n-th event its publisher publishes. */
  datatype Event = Event(kind: string, publisher: nat, serial: nat)

  datatype Registration = Kinds(kinds: seq<string>) | Everything

  /** A publish that has reached the mailboxes in done and still has targets to go. */
  datatype Publish = Publish(event: Event, done: seq<nat>, targets: seq<nat>)

  datatype Bus = Bus(
    byType: map<string, seq<nat>>,
    wildcard: seq<nat>,
    boxes: seq<History<Event>>,
    registered: seq<Registration>,
    handles: set<nat>,
    inflight: map<nat, Publish>,
    counts: map<nat, nat>,
    finished: seq<Publish>)

  datatype Action =
    | Subscribe(kinds: seq<string>, capacity: nat)
    | SubscribeAll(capacity: nat)
    | Unsubscribe(kinds: seq<string>, box: nat)
    | UnsubscribeWildcard(box: nat)
    | Begin(publisher: nat, kind: string)
    | Deliver(publisher: nat)
    | DeliverSync(publisher: nat)
    | GiveUp(publisher: nat)
    | Consume(box: nat)
    | CloseBox(box: nat)
    | DropHandle(box: nat)

  const EMPTY: Bus := Bus(map[], [], [], [], {}, map[], map[], [])

  function Listed(byType: map<string, seq<nat>>, kind: string): seq<nat> {
    if kind in byType then byType[kind] else []
  }

  function Count(counts: map<nat, nat>, publisher: nat): nat {
    if publisher in counts then counts[publisher] else 0
  }

  function Without(ids: seq<nat>, id: nat): seq<nat> {
    if ids == [] then []
    else if ids[0] == id then Without(ids[1..], id)
    else [ids[0]] + Without(ids[1..], id)
  }

  /** The weak references that still upgrade. */
  function KeepLive(ids: seq<nat>, live: set<nat>): seq<nat> {
    if ids == [] then [] else
    var n := |ids| - 1;
    KeepLive(ids[..n], live) + (if ids[n] in live then [ids[n]] else [])
  }

  /** A mailbox lives while its consumer holds it or a publish in progress still has to reach it. */
  function Live(b: Bus): set<nat> {
    b.handles + set p, id | p in b.inflight && id in b.inflight[p].targets :: id
  }

  function AddTo(byType: map<string, seq<nat>>, kinds: seq<string>, id: nat): map<string, seq<nat>> {
    if kinds == [] then byType else
    var front := AddTo(byType, kinds[..|kinds| - 1], id);
    var kind := kinds[|kinds| - 1];
    front[kind := Listed(front, kind) + [id]]
  }

  function RemoveFrom(byType: map<string, seq<nat>>, kinds: seq<string>, id: nat): map<string, seq<nat>> {
    if kinds == [] then byType else
    var front := RemoveFrom(byType, kinds[..|kinds| - 1], id);
    var kind := kinds[|kinds| - 1];
    if kind in front then front[kind := Without(front[kind], id)] else front
  }

  predicate Matches(r: Registration, kind: string) { r.Everything? || kind in r.kinds }

  function Lossy(lossyKinds: set<string>): Event -> bool { (e: Event) => e.kind in lossyKinds }

  /** A reliable event waits while the mailbox is open and full. */
  predicate Blocked(b: Bus, p: Publish, lossyKinds: set<string>)
    requires p.targets != [] && p.targets[0] < |b.boxes|
  {
    var box := b.boxes[p.targets[0]].box;
    p.event.kind !in lossyKinds && !box.closed && |box.items| >= box.capacity
  }

  function Push(e: Event, lossyKinds: set<string>): Op<Event> {
    if e.kind in lossyKinds then OfferLossy(e) else Offer(e)
  }

  function DeliverNext(b: Bus, publisher: nat, lossyKinds: set<string>): Bus {
    if publisher !in b.inflight then b else
    var p := b.inflight[publisher];
    if p.targets == [] then b.(inflight := b.inflight - {publisher}, finished := b.finished + [p])
    else if p.targets[0] >= |b.boxes| || Blocked(b, p, lossyKinds) then b
    else
      var id := p.targets[0];
      b.(boxes := b.boxes[id := Apply(b.boxes[id], Push(p.event, lossyKinds), Lossy(lossyKinds))],
         inflight := b.inflight[publisher := Publish(p.event, p.done + [id], p.targets[1..])])
  }

  /** One try of `publish_sync`: for a reliable event it fails on a closed mailbox as on a full one. */
  function TrySync(b: Bus, publisher: nat, lossyKinds: set<string>): Bus {
    if publisher in b.inflight && SyncFails(b, b.inflight[publisher], lossyKinds) then b
    else DeliverNext(b, publisher, lossyKinds)
  }

  predicate SyncFails(b: Bus, p: Publish, lossyKinds: set<string>) {
    p.targets != [] && p.targets[0] < |b.boxes| && p.event.kind !in lossyKinds
    && var box := b.boxes[p.targets[0]].box; box.closed || |box.items| >= box.capacity
  }

  function BeginPublish(b: Bus, publisher: nat, kind: string): Bus {
    if publisher in b.inflight then b else
    var live := Live(b);
    var serial := Count(b.counts, publisher);
    var typed, all := KeepLive(Listed(b.byType, kind), live), KeepLive(b.wildcard, live);
    b.(byType := if kind in b.byType then b.byType[kind := typed] else b.byType,
       wildcard := all,
       inflight := b.inflight[publisher := Publish(Event(kind, publisher, serial), [], typed + all)],
       counts := b.counts[publisher := serial + 1])
  }

  function OnBox(b: Bus, id: nat, op: Op<Event>, lossyKinds: set<string>): Bus {
    if id < |b.boxes| then b.(boxes := b.boxes[id := Apply(b.boxes[id], op, Lossy(lossyKinds))]) else b
  }

  function Step(b: Bus, a: Action, lossyKinds: set<string>): Bus {
    match a
    case Subscribe(kinds, capacity) =>
      b.(byType := AddTo(b.byType, kinds, |b.boxes|), boxes := b.boxes + [Fresh(capacity)],
         registered := b.registered + [Kinds(kinds)], handles := b.handles + {|b.boxes|})
    case SubscribeAll(capacity) =>
      b.(wildcard := b.wildcard + [|b.boxes|], boxes := b.boxes + [Fresh(capacity)],
         registered := b.registered + [Everything], handles := b.handles + {|b.boxes|})
    case Unsubscribe(kinds, box) => b.(byType := RemoveFrom(b.byType, kinds, box))
    case UnsubscribeWildcard(box) => b.(wildcard := Without(b.wildcard, box))
    case Begin(publisher, kind) => BeginPublish(b, publisher, kind)
    case Deliver(publisher) => DeliverNext(b, publisher, lossyKinds)
    case DeliverSync(publisher) => TrySync(b, publisher, lossyKinds)
    case GiveUp(publisher) => b.(inflight := b.inflight - {publisher})
    case Consume(box) => OnBox(b, box, Receive, lossyKinds)
    case CloseBox(box) => OnBox(b, box, Shut, lossyKinds)
    case DropHandle(box) => b.(handles := b.handles - {box})
  }

  function Run(actions: seq<Action>, lossyKinds: set<string>): Bus {
    if actions == [] then EMPTY
    else Step(Run(actions[..|actions| - 1], lossyKinds), actions[|actions| - 1], lossyKinds)
  }

  // ------------------------------------------------------------- invariant

  /** Publish order: one publisher's events never swap. */
  ghost predicate InPublishOrder(events: seq<Event>) {
    forall i, j | 0 <= i < j < |events| && events[i].publisher == events[j].publisher ::
      events[i].serial <= events[j].serial
  }

  ghost predicate RegisteredFor(ids: seq<nat>, registered: seq<Registration>, kind: string) {
    forall id <- ids :: id < |registered| && Matches(registered[id], kind)
  }

  ghost predicate ListsAreRegistered(b: Bus) {
    && |b.registered| == |b.boxes|
    && (forall kind :: RegisteredFor(Listed(b.byType, kind), b.registered, kind))
    && (forall id <- b.wildcard :: id < |b.registered| && b.registered[id].Everything?)
  }

  /** Each publish in progress is its publisher's latest event, on its way to matching mailboxes. */
  ghost predicate PublishesAreCurrent(b: Bus) {
    forall p <- b.inflight ::
      var x := b.inflight[p];
      && x.event.publisher == p && x.event.serial + 1 == Count(b.counts, p)
      && RegisteredFor(x.targets, b.registered, x.event.kind)
  }

  /** A mailbox has only seen matching events, in publish order, and passes them on faithfully. */
  ghost predicate Sound(h: History<Event>, r: Registration, counts: map<nat, nat>, lossyKinds: set<string>) {
    && Faithful(h, Lossy(lossyKinds))
    && Reliable(h.accepted, Lossy(lossyKinds)) == Reliable(h.arrivals, Lossy(lossyKinds))
    && (forall e <- h.arrivals :: Matches(r, e.kind) && e.serial < Count(counts, e.publisher))
    && InPublishOrder(h.arrivals)
  }

  ghost predicate BoxesAreSound(b: Bus, lossyKinds: set<string>) {
    |b.registered| == |b.boxes| &&
    forall i | 0 <= i < |b.boxes| :: Sound(b.boxes[i], b.registered[i], b.counts, lossyKinds)
  }

  /** Every mailbox a publish is past has seen the event, or was closed. */
  ghost predicate Reached(b: Bus, x: Publish) {
    forall id <- x.done :: id < |b.boxes| && (b.boxes[id].box.closed || x.event in b.boxes[id].arrivals)
  }

  ghost predicate AllReached(b: Bus) {
    && (forall p <- b.inflight :: Reached(b, b.inflight[p]))
    && (forall x <- b.finished :: x.targets == [] && Reached(b, x))
  }

  ghost predicate Inv(b: Bus, lossyKinds: set<string>) {
    ListsAreRegistered(b) && PublishesAreCurrent(b) && BoxesAreSound(b, lossyKinds) && AllReached(b)
  }

  // ------------------------------------------------------------ list lemmas

  lemma {:induction false} WithoutIsPart(ids: seq<nat>, id: nat)
    ensures forall x :: x in Without(ids, id) <==> x in ids && x != id
  {
    if ids != [] { WithoutIsPart(ids[1..], id); }
  }

  lemma {:induction false} KeepLiveIsPart(ids: seq<nat>, live: set<nat>)
    ensures forall x :: x in KeepLive(ids, live) <==> x in ids && x in live
  {
    if ids != [] { KeepLiveIsPart(ids[..|ids| - 1], live); }
  }

  lemma {:induction false} AddToShape(byType: map<string, seq<nat>>, kinds: seq<string>, id: nat)
    ensures forall kind, x :: x in Listed(AddTo(byType, kinds, id), kind) <==>
              x in Listed(byType, kind) || (x == id && kind in kinds)
  {
    if kinds != [] {
      var front, last := kinds[..|kinds| - 1], kinds[|kinds| - 1];
      AddToShape(byType, front, id);
      assert kinds == front + [last];
      forall kind, x
        ensures x in Listed(AddTo(byType, kinds, id), kind) <==>
                x in Listed(byType, kind) || (x == id && kind in kinds)
      {
        assert kind in kinds <==> kind in front || kind == last;
        var before := AddTo(byType, front, id);
        assert Listed(AddTo(byType, kinds, id), kind) ==
               if kind == last then Listed(before, kind) + [id] else Listed(before, kind);
      }
    }
  }

  lemma {:induction false} RemoveFromShape(byType: map<string, seq<nat>>, kinds: seq<string>, id: nat)
    ensures forall kind, x :: x in Listed(RemoveFrom(byType, kinds, id), kind) <==>
              x in Listed(byType, kind) && !(x == id && kind in kinds)
  {
    if kinds != [] {
      var front := RemoveFrom(byType, kinds[..|kinds| - 1], id);
      var kind := kinds[|kinds| - 1];
      RemoveFromShape(byType, kinds[..|kinds| - 1], id);
      WithoutIsPart(Listed(front, kind), id);
      assert forall k :: k in kinds <==> k in kinds[..|kinds| - 1] || k == kind;
    }
  }

  // --------------------------------------------------------------- one step

  lemma {:induction false} NewBoxKeepsInv(b: Bus, a: Action, lossyKinds: set<string>)
    requires Inv(b, lossyKinds) && (a.Subscribe? || a.SubscribeAll?)
    ensures Inv(Step(b, a, lossyKinds), lossyKinds)
  {
    hide Faithful, Reliable;
    var after := Step(b, a, lossyKinds);
    if a.Subscribe? { AddToShape(b.byType, a.kinds, |b.boxes|); }
    assert Sound(Fresh(a.capacity), after.registered[|b.boxes|], after.counts, lossyKinds) by {
      FreshIsFaithful(a.capacity, lossyKinds);
    }
  }

  lemma {:induction false} FreshIsFaithful(capacity: nat, lossyKinds: set<string>)
    ensures Faithful(Fresh(capacity), Lossy(lossyKinds))
    ensures Reliable(Fresh(capacity).accepted, Lossy(lossyKinds)) == Reliable(Fresh(capacity).arrivals, Lossy(lossyKinds))
  {
  }

  lemma {:induction false} UnsubscribeKeepsInv(b: Bus, a: Action, lossyKinds: set<string>)
    requires Inv(b, lossyKinds) && (a.Unsubscribe? || a.UnsubscribeWildcard?)
    ensures Inv(Step(b, a, lossyKinds), lossyKinds)
  {
    hide Sound;
    if a.Unsubscribe? { RemoveFromShape(b.byType, a.kinds, a.box); } else { WithoutIsPart(b.wildcard, a.box); }
  }

  lemma {:induction false} BeginKeepsLists(b: Bus, publisher: nat, kind: string)
    requires ListsAreRegistered(b) && PublishesAreCurrent(b)
    ensures ListsAreRegistered(BeginPublish(b, publisher, kind))
    ensures PublishesAreCurrent(BeginPublish(b, publisher, kind))
  {
    hide KeepLive, Live;
    KeepLiveIsPart(Listed(b.byType, kind), Live(b));
    KeepLiveIsPart(b.wildcard, Live(b));
    var after := BeginPublish(b, publisher, kind);
    forall k ensures RegisteredFor(Listed(after.byType, k), after.registered, k) {
      assert RegisteredFor(Listed(b.byType, k), b.registered, k);
    }
  }

  lemma {:induction false} BeginKeepsInv(b: Bus, publisher: nat, kind: string, lossyKinds: set<string>)
    requires Inv(b, lossyKinds)
    ensures Inv(BeginPublish(b, publisher, kind), lossyKinds)
  {
    hide Faithful, Reliable, InPublishOrder, KeepLive, Live, ListsAreRegistered, PublishesAreCurrent;
    BeginKeepsLists(b, publisher, kind);
    var after := BeginPublish(b, publisher, kind);
    forall i | 0 <= i < |b.boxes| ensures Sound(after.boxes[i], after.registered[i], after.counts, lossyKinds) {
      assert Sound(b.boxes[i], b.registered[i], b.counts, lossyKinds);
    }
  }

  /** An operation on a mailbox that brings nothing new in. */
  lemma {:induction false} OnBoxKeepsInv(b: Bus, id: nat, op: Op<Event>, lossyKinds: set<string>)
    requires Inv(b, lossyKinds) && (op == Receive || op == Shut)
    ensures Inv(OnBox(b, id, op, lossyKinds), lossyKinds)
  {
    hide Faithful, Reliable, InPublishOrder;
    if id < |b.boxes| {
      assert Sound(b.boxes[id], b.registered[id], b.counts, lossyKinds);
      StepKeepsFaithful(b.boxes[id], op, Lossy(lossyKinds));
    }
  }

  lemma {:induction false} PushKeepsSound(
    h: History<Event>, e: Event, r: Registration, counts: map<nat, nat>, lossyKinds: set<string>)
    requires Sound(h, r, counts, lossyKinds)
    requires Matches(r, e.kind) && e.serial + 1 == Count(counts, e.publisher)
    ensures Sound(Apply(h, Push(e, lossyKinds), Lossy(lossyKinds)), r, counts, lossyKinds)
  {
    hide Faithful, Reliable;
    StepKeepsFaithful(h, Push(e, lossyKinds), Lossy(lossyKinds));
    StepAcceptsReliable(h, Push(e, lossyKinds), Lossy(lossyKinds));
  }

  /** A mailbox never forgets an arrival, and an unblocked push arrives unless the mailbox is closed. */
  lemma {:induction false} PushArrives(h: History<Event>, e: Event, lossyKinds: set<string>)
    requires e.kind in lossyKinds || h.box.closed || |h.box.items| < h.box.capacity
    ensures var after := Apply(h, Push(e, lossyKinds), Lossy(lossyKinds));
      && after.box.closed == h.box.closed
      && (forall x <- h.arrivals :: x in after.arrivals)
      && (after.box.closed || e in after.arrivals)
  {
  }

  lemma {:induction false} DeliverKeepsReached(b: Bus, publisher: nat, lossyKinds: set<string>)
    requires AllReached(b)
    ensures AllReached(DeliverNext(b, publisher, lossyKinds))
  {
    hide Apply, Push;
    var after := DeliverNext(b, publisher, lossyKinds);
    if publisher in b.inflight && b.inflight[publisher].targets != [] && after != b {
      var x := b.inflight[publisher];
      PushArrives(b.boxes[x.targets[0]], x.event, lossyKinds);
      forall y: Publish | Reached(b, y) ensures Reached(after, y) {}
      assert Reached(after, Publish(x.event, x.done + [x.targets[0]], x.targets[1..]));
    }
  }

  lemma {:induction false} DeliverKeepsInv(b: Bus, publisher: nat, lossyKinds: set<string>)
    requires Inv(b, lossyKinds)
    ensures Inv(DeliverNext(b, publisher, lossyKinds), lossyKinds)
  {
    hide Sound, AllReached, Apply, Push, Blocked;
    DeliverKeepsReached(b, publisher, lossyKinds);
    var after := DeliverNext(b, publisher, lossyKinds);
    if publisher in b.inflight && b.inflight[publisher].targets != [] && after != b {
      var x := b.inflight[publisher];
      var id := x.targets[0];
      PushKeepsSound(b.boxes[id], x.event, b.registered[id], b.counts, lossyKinds);
      assert ListsAreRegistered(after);
      assert PublishesAreCurrent(after) by {
        assert forall t <- x.targets[1..] :: t in x.targets;
      }
    }
  }

  lemma {:induction false} StepKeepsInv(b: Bus, a: Action, lossyKinds: set<string>)
    requires Inv(b, lossyKinds)
    ensures Inv(Step(b, a, lossyKinds), lossyKinds)
  {
    match a
    case Subscribe(_, _) => NewBoxKeepsInv(b, a, lossyKinds);
    case SubscribeAll(_) => NewBoxKeepsInv(b, a, lossyKinds);
    case Unsubscribe(_, _) => UnsubscribeKeepsInv(b, a, lossyKinds);
    case UnsubscribeWildcard(_) => UnsubscribeKeepsInv(b, a, lossyKinds);
    case Begin(publisher, kind) => BeginKeepsInv(b, publisher, kind, lossyKinds);
    case Deliver(publisher) => DeliverKeepsInv(b, publisher, lossyKinds);
    case DeliverSync(publisher) => DeliverKeepsInv(b, publisher, lossyKinds);
    case GiveUp(publisher) => GiveUpKeepsInv(b, publisher, lossyKinds);
    case Consume(box) => OnBoxKeepsInv(b, box, Receive, lossyKinds);
    case CloseBox(box) => OnBoxKeepsInv(b, box, Shut, lossyKinds);
    case DropHandle(box) => { hide Sound; }
  }

  lemma {:induction false} GiveUpKeepsInv(b: Bus, publisher: nat, lossyKinds: set<string>)
    requires Inv(b, lossyKinds)
    ensures Inv(b.(inflight := b.inflight - {publisher}), lossyKinds)
  {
    hide Sound;
  }

  lemma {:induction false} RunKeepsInv(actions: seq<Action>, lossyKinds: set<string>)
    ensures Inv(Run(actions, lossyKinds), lossyKinds)
  {
    if actions != [] {
      RunKeepsInv(actions[..|actions| - 1], lossyKinds);
      StepKeepsInv(Run(actions[..|actions| - 1], lossyKinds), actions[|actions| - 1], lossyKinds);
    }
  }

  // --------------------------------------------------------------- theorems

  /**
   What a consumer can rely on, whatever publishers, subscribers and consumers do: everything it has
   received or will receive matches its registration and keeps each publisher's order, and no
   reliable event that reached its open mailbox is missing.
   */
  lemma {:induction false} ConsumersSeeTheirEventsInOrder(actions: seq<Action>, lossyKinds: set<string>, id: nat)
    requires id < |Run(actions, lossyKinds).boxes|
    ensures var b := Run(actions, lossyKinds);
      var seen := Through(b.boxes[id]);
      && id < |b.registered|
      && (forall e <- seen :: Matches(b.registered[id], e.kind))
      && InPublishOrder(seen)
      && Reliable(seen, Lossy(lossyKinds)) == Reliable(b.boxes[id].arrivals, Lossy(lossyKinds))
  {
    hide Subsequence, Reliable;
    var b := Run(actions, lossyKinds);
    RunKeepsInv(actions, lossyKinds);
    var h := b.boxes[id];
    assert Sound(h, b.registered[id], b.counts, lossyKinds);
    var at := SubsequenceEmbeds(Through(h), h.arrivals);
    forall i, j | 0 <= i < j < |Through(h)| && Through(h)[i].publisher == Through(h)[j].publisher
      ensures Through(h)[i].serial <= Through(h)[j].serial
    {
      assert at[i] < at[j];
    }
  }

  /** The mailboxes a publish starts with: every live one registered for the type, and every live wildcard. */
  lemma {:induction false} BeginTargetsAllLive(b: Bus, publisher: nat, kind: string, id: nat)
    requires publisher !in b.inflight
    ensures id in BeginPublish(b, publisher, kind).inflight[publisher].targets <==>
            id in Live(b) && (id in Listed(b.byType, kind) || id in b.wildcard)
  {
    KeepLiveIsPart(Listed(b.byType, kind), Live(b));
    KeepLiveIsPart(b.wildcard, Live(b));
  }

  /** Delivery only moves targets to done: what a publish started with is always done + targets. */
  lemma {:induction false} DeliverMovesOneTarget(b: Bus, publisher: nat, lossyKinds: set<string>)
    requires publisher in b.inflight
    ensures var after := DeliverNext(b, publisher, lossyKinds);
      var x := b.inflight[publisher];
      if publisher in after.inflight then
        var y := after.inflight[publisher];
        y.event == x.event && y.done + y.targets == x.done + x.targets && after.finished == b.finished
      else x.targets == [] && after.finished == b.finished + [x]
  {
  }

  /** A delivery waits exactly while its event is reliable and the next mailbox is open and full. */
  lemma {:induction false} DeliverWaitsIff(b: Bus, publisher: nat, lossyKinds: set<string>)
    requires publisher in b.inflight && b.inflight[publisher].targets != []
    requires b.inflight[publisher].targets[0] < |b.boxes|
    ensures var after := DeliverNext(b, publisher, lossyKinds);
      var x := b.inflight[publisher];
      var id := x.targets[0];
      var box := b.boxes[id].box;
      if x.event.kind !in lossyKinds && !box.closed && |box.items| >= box.capacity then after == b
      else
        && after.inflight == b.inflight[publisher := Publish(x.event, x.done + [id], x.targets[1..])]
        && |after.boxes| == |b.boxes| && (forall k | 0 <= k < |b.boxes| && k != id :: after.boxes[k] == b.boxes[k])
        && after.boxes[id].box.closed == box.closed
        && (box.closed ==> after.boxes[id] == b.boxes[id])
        && (!box.closed ==> after.boxes[id].arrivals == b.boxes[id].arrivals + [x.event])
        && (!box.closed && |box.items| < box.capacity ==> after.boxes[id].box.items == box.items + [x.event])
  {
    hide Oldest, RemoveAt;
  }

  /** An unsubscribed mailbox is off the lists it was asked off, and everything else stays. */
  lemma {:induction false} UnsubscribeIs(b: Bus, kinds: seq<string>, id: nat, lossyKinds: set<string>, kind: string, x: nat)
    ensures var typed := Step(b, Unsubscribe(kinds, id), lossyKinds);
      && typed == b.(byType := typed.byType)
      && (x in Listed(typed.byType, kind) <==> x in Listed(b.byType, kind) && !(x == id && kind in kinds))
    ensures var all := Step(b, UnsubscribeWildcard(id), lossyKinds);
      && all == b.(wildcard := all.wildcard) && (x in all.wildcard <==> x in b.wildcard && x != id)
  {
    WithoutIsPart(b.wildcard, id);
    RemoveFromShape(b.byType, kinds, id);
  }

  /** Step m began the publish, which then had all its targets, reached by now or not, before it. */
  ghost predicate StartedAt(actions: seq<Action>, lossyKinds: set<string>, m: nat, x: Publish) {
    && m < |actions| && actions[m] == Begin(x.event.publisher, x.event.kind)
    && x.event.publisher !in Run(actions[..m], lossyKinds).inflight
    && BeginPublish(Run(actions[..m], lossyKinds), x.event.publisher, x.event.kind).inflight[x.event.publisher]
       == Publish(x.event, [], x.done + x.targets)
  }

  ghost predicate Started(actions: seq<Action>, lossyKinds: set<string>, x: Publish) {
    exists m: nat :: StartedAt(actions, lossyKinds, m, x)
  }

  /** A publish with the same event, done and targets together was started at the same step. */
  lemma {:induction false} StaysStarted(
    actions: seq<Action>, a: Action, lossyKinds: set<string>, x: Publish, y: Publish)
    requires Started(actions, lossyKinds, x) && y.event == x.event && y.done + y.targets == x.done + x.targets
    ensures Started(actions + [a], lossyKinds, y)
  {
    hide BeginPublish, Run;
    var m: nat :| StartedAt(actions, lossyKinds, m, x);
    assert (actions + [a])[..m] == actions[..m];
    assert StartedAt(actions + [a], lossyKinds, m, y);
  }

  lemma {:induction false} BeginStarts(actions: seq<Action>, lossyKinds: set<string>, publisher: nat, kind: string)
    requires publisher !in Run(actions, lossyKinds).inflight
    ensures var more := actions + [Begin(publisher, kind)];
      var x := BeginPublish(Run(actions, lossyKinds), publisher, kind).inflight[publisher];
      Started(more, lossyKinds, x)
  {
    hide Run, KeepLive, Live;
    var more := actions + [Begin(publisher, kind)];
    var x := BeginPublish(Run(actions, lossyKinds), publisher, kind).inflight[publisher];
    assert more[..|actions|] == actions && [] + x.targets == x.targets;
    assert StartedAt(more, lossyKinds, |actions|, x);
  }

  ghost predicate AllStarted(actions: seq<Action>, lossyKinds: set<string>) {
    var b := Run(actions, lossyKinds);
    && (forall p <- b.inflight :: Started(actions, lossyKinds, b.inflight[p]))
    && (forall x <- b.finished :: Started(actions, lossyKinds, x))
  }

  lemma {:induction false} StepKeepsStarted(actions: seq<Action>, a: Action, lossyKinds: set<string>)
    requires AllStarted(actions, lossyKinds)
    ensures AllStarted(actions + [a], lossyKinds)
  {
    hide Started, KeepLive, Live, Run;
    var b, more := Run(actions, lossyKinds), actions + [a];
    RunMore(actions, a, lossyKinds);
    var after := Run(more, lossyKinds);
    forall p <- after.inflight ensures Started(more, lossyKinds, after.inflight[p]) {
      var y := after.inflight[p];
      if p in b.inflight {
        StaysStarted(actions, a, lossyKinds, b.inflight[p], y);
      } else {
        BeginStarts(actions, lossyKinds, p, a.kind);
      }
    }
    forall x <- after.finished ensures Started(more, lossyKinds, x) {
      StaysStarted(actions, a, lossyKinds, x, x);
    }
  }

  lemma {:induction false} RunMore(actions: seq<Action>, a: Action, lossyKinds: set<string>)
    ensures Run(actions + [a], lossyKinds) == Step(Run(actions, lossyKinds), a, lossyKinds)
  {
    assert (actions + [a])[..|actions|] == actions;
  }

  lemma {:induction false} RunKeepsStarted(actions: seq<Action>, lossyKinds: set<string>)
    ensures AllStarted(actions, lossyKinds)
  {
    hide Step, Started;
    if actions != [] {
      var n := |actions| - 1;
      RunKeepsStarted(actions[..n], lossyKinds);
      assert actions == actions[..n] + [actions[n]];
      StepKeepsStarted(actions[..n], actions[n], lossyKinds);
    }
  }

  /**
   Over every run, a publish that ran to its end put its event into every mailbox that was alive and
   registered for its kind, or for everything, when it began, unless that mailbox was closed.
   */
  lemma {:induction false} FinishedPublishReachedAll(actions: seq<Action>, lossyKinds: set<string>, x: Publish)
    returns (m: nat)
    requires x in Run(actions, lossyKinds).finished
    ensures StartedAt(actions, lossyKinds, m, x)
    ensures var b, began := Run(actions, lossyKinds), Run(actions[..m], lossyKinds);
      forall id | id in Live(began) && (id in Listed(began.byType, x.event.kind) || id in began.wildcard) ::
        id < |b.boxes| && (b.boxes[id].box.closed || x.event in b.boxes[id].arrivals)
  {
    hide Run, KeepLive, Live, Listed;
    RunKeepsInv(actions, lossyKinds);
    RunKeepsStarted(actions, lossyKinds);
    m :| StartedAt(actions, lossyKinds, m, x);
    var b, began := Run(actions, lossyKinds), Run(actions[..m], lossyKinds);
    assert x.targets == [] && Reached(b, x);
    forall id | id in Live(began) && (id in Listed(began.byType, x.event.kind) || id in began.wildcard)
      ensures id < |b.boxes| && (b.boxes[id].box.closed || x.event in b.boxes[id].arrivals)
    {
      BeginTargetsAllLive(began, x.event.publisher, x.event.kind, id);
      assert id in x.done + x.targets;
    }
  }

  // ------------------------------------------------- publishes that end early

  /** A publish in progress has only reached the mailboxes in done, and has not finished before. */
  ghost predicate NotAhead(b: Bus) {
    && (forall p, id: nat | p in b.inflight && id < |b.boxes| && id !in b.inflight[p].done ::
          b.inflight[p].event !in b.boxes[id].arrivals)
    && (forall x <- b.finished ::
          && x.event.serial < Count(b.counts, x.event.publisher)
          && (x.event.publisher in b.inflight ==> b.inflight[x.event.publisher].event != x.event))
  }

  /** What arrives in a mailbox during a delivery is the publish's own event, in its next target. */
  lemma {:induction false} DeliverArrives(b: Bus, publisher: nat, lossyKinds: set<string>, id: nat, e: Event)
    requires id < |b.boxes| && e !in b.boxes[id].arrivals
    ensures var after := DeliverNext(b, publisher, lossyKinds);
      && |after.boxes| == |b.boxes|
      && (b.boxes[id].box.closed ==> after.boxes[id].box.closed)
      && (e in after.boxes[id].arrivals ==>
            publisher in b.inflight && b.inflight[publisher].event == e
            && b.inflight[publisher].targets != [] && b.inflight[publisher].targets[0] == id)
  {
  }

  lemma {:induction false} DeliverKeepsNotAhead(b: Bus, publisher: nat, lossyKinds: set<string>)
    requires PublishesAreCurrent(b) && NotAhead(b)
    ensures NotAhead(DeliverNext(b, publisher, lossyKinds))
  {
    hide Apply, Push, Blocked, RegisteredFor;
    var after := DeliverNext(b, publisher, lossyKinds);
    forall p, id: nat | p in after.inflight && id < |after.boxes| && id !in after.inflight[p].done
      ensures after.inflight[p].event !in after.boxes[id].arrivals
    {
      assert p in b.inflight && after.inflight[p].event == b.inflight[p].event;
      assert id !in b.inflight[p].done;
      DeliverArrives(b, publisher, lossyKinds, id, b.inflight[p].event);
    }
  }

  lemma {:induction false} BeginKeepsNotAhead(b: Bus, publisher: nat, kind: string, lossyKinds: set<string>)
    requires Inv(b, lossyKinds) && NotAhead(b)
    ensures NotAhead(BeginPublish(b, publisher, kind))
  {
    hide KeepLive, Live, ListsAreRegistered, PublishesAreCurrent, AllReached;
    forall i: nat | i < |b.boxes| && publisher !in b.inflight
      ensures Event(kind, publisher, Count(b.counts, publisher)) !in b.boxes[i].arrivals
    {
      ArrivalsAreCounted(b, lossyKinds, i, Event(kind, publisher, Count(b.counts, publisher)));
    }
  }

  lemma {:induction false} ArrivalsAreCounted(b: Bus, lossyKinds: set<string>, i: nat, e: Event)
    requires BoxesAreSound(b, lossyKinds) && i < |b.boxes|
    ensures e in b.boxes[i].arrivals ==> e.serial < Count(b.counts, e.publisher)
  {
    assert Sound(b.boxes[i], b.registered[i], b.counts, lossyKinds);
  }

  lemma {:induction false} StepKeepsNotAhead(b: Bus, a: Action, lossyKinds: set<string>)
    requires Inv(b, lossyKinds) && NotAhead(b)
    ensures NotAhead(Step(b, a, lossyKinds))
  {
    hide Inv, DeliverNext, BeginPublish, OnBox, AddTo, RemoveFrom, SyncFails;
    match a
    case Begin(publisher, kind) => BeginKeepsNotAhead(b, publisher, kind, lossyKinds);
    case Deliver(publisher) => DeliverIsNotAhead(b, publisher, lossyKinds);
    case DeliverSync(publisher) => DeliverIsNotAhead(b, publisher, lossyKinds);
    case Consume(box) => OnBoxKeepsNotAhead(b, box, Receive, lossyKinds);
    case CloseBox(box) => OnBoxKeepsNotAhead(b, box, Shut, lossyKinds);
    case _ =>
  }

  lemma {:induction false} DeliverIsNotAhead(b: Bus, publisher: nat, lossyKinds: set<string>)
    requires Inv(b, lossyKinds) && NotAhead(b)
    ensures NotAhead(DeliverNext(b, publisher, lossyKinds))
  {
    hide NotAhead;
    DeliverKeepsNotAhead(b, publisher, lossyKinds);
  }

  lemma {:induction false} OnBoxKeepsNotAhead(b: Bus, id: nat, op: Op<Event>, lossyKinds: set<string>)
    requires NotAhead(b) && (op == Receive || op == Shut)
    ensures NotAhead(OnBox(b, id, op, lossyKinds))
  {
  }

  lemma {:induction false} RunKeepsNotAhead(actions: seq<Action>, lossyKinds: set<string>)
    ensures NotAhead(Run(actions, lossyKinds))
  {
    hide Step, Inv;
    if actions != [] {
      RunKeepsNotAhead(actions[..|actions| - 1], lossyKinds);
      RunKeepsInv(actions[..|actions| - 1], lossyKinds);
      StepKeepsNotAhead(Run(actions[..|actions| - 1], lossyKinds), actions[|actions| - 1], lossyKinds);
    } else {
      NothingIsAhead();
    }
  }

  lemma {:induction false} NothingIsAhead()
    ensures NotAhead(EMPTY)
  {
  }

  ghost predicate InProgress(b: Bus, e: Event) {
    e.publisher in b.inflight && b.inflight[e.publisher].event == e
  }

  /** The publish is not in the mailbox, has not finished, and is over or waits at a closed mailbox. */
  ghost predicate Stopped(b: Bus, x: Publish, id: nat) {
    && x.event.serial < Count(b.counts, x.event.publisher)
    && (id < |b.boxes| ==> x.event !in b.boxes[id].arrivals)
    && (forall y <- b.finished :: y.event != x.event)
    && (InProgress(b, x.event) ==>
          && b.inflight[x.event.publisher] == x && x.targets != []
          && x.targets[0] < |b.boxes| && b.boxes[x.targets[0]].box.closed)
  }

  lemma {:induction false} StopStays(b: Bus, a: Action, lossyKinds: set<string>, x: Publish, id: nat)
    requires PublishesAreCurrent(b) && Stopped(b, x, id)
    requires InProgress(b, x.event) ==> a != Deliver(x.event.publisher) && x.event.kind !in lossyKinds
    ensures var after := Step(b, a, lossyKinds);
      Stopped(after, x, id) && (InProgress(after, x.event) ==> InProgress(b, x.event))
  {
    hide KeepLive, Live, AddTo, RemoveFrom;
    match a
    case Deliver(p) => DeliverStays(b, p, lossyKinds, x, id);
    case DeliverSync(p) =>
      if !(p in b.inflight && SyncFails(b, b.inflight[p], lossyKinds)) { DeliverStays(b, p, lossyKinds, x, id); }
    case _ =>
  }

  lemma {:induction false} DeliverStays(b: Bus, p: nat, lossyKinds: set<string>, x: Publish, id: nat)
    requires PublishesAreCurrent(b) && Stopped(b, x, id)
    requires p == x.event.publisher ==> !InProgress(b, x.event)
    ensures var after := DeliverNext(b, p, lossyKinds);
      Stopped(after, x, id) && (InProgress(after, x.event) ==> InProgress(b, x.event))
  {
    if id < |b.boxes| { DeliverArrives(b, p, lossyKinds, id, x.event); }
    if x.targets != [] && x.targets[0] < |b.boxes| { ClosedStays(b, p, lossyKinds, x.targets[0]); }
    hide Apply, Push, Blocked;
  }

  lemma {:induction false} ClosedStays(b: Bus, p: nat, lossyKinds: set<string>, id: nat)
    requires id < |b.boxes|
    ensures b.boxes[id].box.closed ==> DeliverNext(b, p, lossyKinds).boxes[id].box.closed
  {
  }

  lemma {:induction false} RunStaysStopped(
    actions: seq<Action>, later: seq<Action>, lossyKinds: set<string>, x: Publish, id: nat)
    requires Stopped(Run(actions, lossyKinds), x, id)
    requires InProgress(Run(actions, lossyKinds), x.event) ==>
               Deliver(x.event.publisher) !in later && x.event.kind !in lossyKinds
    ensures var b, after := Run(actions, lossyKinds), Run(actions + later, lossyKinds);
      Stopped(after, x, id) && (InProgress(after, x.event) ==> InProgress(b, x.event))
  {
    hide Step, Stopped, Inv, Run;
    if later == [] {
      assert actions + later == actions;
    } else {
      var n := |later| - 1;
      var front := actions + later[..n];
      assert actions + later == front + [later[n]];
      RunMore(front, later[n], lossyKinds);
      RunStaysStopped(actions, later[..n], lossyKinds, x, id);
      RunIsCurrent(front, lossyKinds);
      StopStays(Run(front, lossyKinds), later[n], lossyKinds, x, id);
    }
  }

  lemma {:induction false} RunIsCurrent(actions: seq<Action>, lossyKinds: set<string>)
    ensures PublishesAreCurrent(Run(actions, lossyKinds)) && ListsAreRegistered(Run(actions, lossyKinds))
  {
    RunKeepsInv(actions, lossyKinds);
  }

  /**
   A synchronous publish of a reliable event that comes to a closed mailbox stops there: it never finishes, and
   neither that mailbox nor any later target ever gets the event, whatever else happens on the bus.
   */
  lemma {:induction false} ClosedMailboxStopsSyncPublish(
    actions: seq<Action>, later: seq<Action>, lossyKinds: set<string>, p: nat, id: nat)
    requires var b := Run(actions, lossyKinds);
      && p in b.inflight && b.inflight[p].event.kind !in lossyKinds && id !in b.inflight[p].done
      && b.inflight[p].targets != [] && b.inflight[p].targets[0] < |b.boxes|
      && b.boxes[b.inflight[p].targets[0]].box.closed
    requires Deliver(p) !in later
    ensures var x, after := Run(actions, lossyKinds).inflight[p], Run(actions + later, lossyKinds);
      && (id < |after.boxes| ==> x.event !in after.boxes[id].arrivals)
      && (forall y <- after.finished :: y.event != x.event)
      && (InProgress(after, x.event) ==> after.inflight[x.event.publisher] == x)
  {
    hide Run;
    RunKeepsNotAhead(actions, lossyKinds);
    RunIsCurrent(actions, lossyKinds);
    var x := Run(actions, lossyKinds).inflight[p];
    CurrentIsFresh(Run(actions, lossyKinds), p, id);
    RunStaysStopped(actions, later, lossyKinds, x, id);
  }

  lemma {:induction false} CurrentIsFresh(b: Bus, p: nat, id: nat)
    requires PublishesAreCurrent(b) && NotAhead(b) && p in b.inflight && id !in b.inflight[p].done
    ensures var x := b.inflight[p];
      && x.event.publisher == p && x.event.serial < Count(b.counts, p)
      && (id < |b.boxes| ==> x.event !in b.boxes[id].arrivals)
      && forall y <- b.finished :: y.event != x.event
  {
  }

  /** A publish that gave up reaches no mailbox it had not reached before. */
  lemma {:induction false} GivenUpReachesNoMore(
    actions: seq<Action>, later: seq<Action>, lossyKinds: set<string>, p: nat, id: nat)
    requires var b := Run(actions, lossyKinds);
      p in b.inflight && id !in b.inflight[p].done
    ensures var x, after := Run(actions, lossyKinds).inflight[p], Run(actions + [GiveUp(p)] + later, lossyKinds);
      && (id < |after.boxes| ==> x.event !in after.boxes[id].arrivals)
      && !InProgress(after, x.event) && (forall y <- after.finished :: y.event != x.event)
  {
    hide Run;
    RunKeepsNotAhead(actions, lossyKinds);
    RunIsCurrent(actions, lossyKinds);
    var x := Run(actions, lossyKinds).inflight[p];
    CurrentIsFresh(Run(actions, lossyKinds), p, id);
    RunMore(actions, GiveUp(p), lossyKinds);
    RunStaysStopped(actions + [GiveUp(p)], later, lossyKinds, x, id);
  }

  // ----------------------------------------------------- the subscriber lists

  class Registry {
    var byType: map<string, seq<nat>>
    var wildcard: seq<nat>

    /** `subscribe`, `subscribe_maxsize` (one kind) and `subscribe_many`. */
    method SubscribeMany(kinds: seq<string>, id: nat)
      modifies this
      ensures byType == AddTo(old(byType), kinds, id) && wildcard == old(wildcard)
    {
      for i := 0 to |kinds|
        invariant byType == AddTo(old(byType), kinds[..i], id) && wildcard == old(wildcard)
      {
        assert kinds[..i + 1][..i] == kinds[..i];
        byType := byType[kinds[i] := Listed(byType, kinds[i]) + [id]];
      }
      assert kinds[..|kinds|] == kinds;
    }

    method UnsubscribeMany(kinds: seq<string>, id: nat)
      modifies this
      ensures byType == RemoveFrom(old(byType), kinds, id) && wildcard == old(wildcard)
    {
      for i := 0 to |kinds|
        invariant byType == RemoveFrom(old(byType), kinds[..i], id) && wildcard == old(wildcard)
      {
        assert kinds[..i + 1][..i] == kinds[..i];
        if kinds[i] in byType { byType := byType[kinds[i] := Without(byType[kinds[i]], id)]; }
      }
      assert kinds[..|kinds|] == kinds;
    }

    /** Collect the live mailboxes for a type, pruning dead ones from both lists. */
    method MatchingMailboxes(kind: string, live: set<nat>) returns (out: seq<nat>)
      modifies this
      ensures out == KeepLive(Listed(old(byType), kind), live) + KeepLive(old(wildcard), live)
      ensures byType == if kind in old(byType) then old(byType)[kind := KeepLive(old(byType)[kind], live)]
                        else old(byType)
      ensures wildcard == KeepLive(old(wildcard), live)
    {
      out := [];
      if kind in byType {
        out := Retain(byType[kind], live);
        byType := byType[kind := out];
      }
      var all := Retain(wildcard, live);
      wildcard := all;
      out := out + all;
    }

    static method Retain(ids: seq<nat>, live: set<nat>) returns (kept: seq<nat>)
      ensures kept == KeepLive(ids, live)
    {
      kept := [];
      for i := 0 to |ids|
        invariant kept == KeepLive(ids[..i], live)
      {
        assert ids[..i + 1][..i] == ids[..i];
        if ids[i] in live { kept := kept + [ids[i]]; }
      }
      assert ids[..|ids|] == ids;
    }
  }
}
