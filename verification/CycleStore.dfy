/**
 Funding-arbitrage cycles under optimistic revisions. Any number of holders may keep any handle the
 store ever returned; a transition succeeds only from the row's current revision and appends exactly
 one event. Rows are listed in creation order.
 */
module CycleStore {
  import opened DecimalCore
  import opened Options

  datatype State =
    | EnteringSpot | EnteringPerp | CompensatingEntry | Open | Rebalancing
    | ExitingPerp | ExitingSpot | Closed | Faulted

  datatype ClientIds = ClientIds(
    spotEntry: Option<string>, perpEntry: Option<string>, compensation: Option<string>,
    perpExit: Option<string>, spotExit: Option<string>)

  datatype Cycle = Cycle(
    id: nat, strategy: string, state: State, perpOpen: Decimal, spotOpen: Decimal,
    ids: ClientIds, errorCode: Option<string>, errorMessage: Option<string>, revision: nat)

  datatype CycleEvent = CycleEvent(cycle: nat, revision: nat, from: Option<State>, to: State)

  datatype Updates = Updates(
    perpOpen: Option<Decimal>, spotOpen: Option<Decimal>, ids: ClientIds,
    errorCode: Option<string>, errorMessage: Option<string>)

  datatype Result = Ok(handle: Cycle) | Stale | Refused

  /** handles is the set of everything the store has returned. */
  datatype Store = Store(rows: seq<Cycle>, events: seq<CycleEvent>, handles: set<Cycle>)

  const EMPTY: Store := Store([], [], {})

  function Find(rows: seq<Cycle>, id: nat): (r: Option<nat>)
    ensures r.Some? ==> r.value < |rows| && rows[r.value].id == id
    ensures r.None? ==> forall i | 0 <= i < |rows| :: rows[i].id != id
  {
    if rows == [] then None
    else if rows[0].id == id then Some(0)
    else match Find(rows[1..], id)
      case None => None
      case Some(i) => Some(i + 1)
  }

  /** The partial unique index: at most one cycle of a strategy that is not closed. */
  predicate OneActive(rows: seq<Cycle>) {
    forall i, j | 0 <= i < j < |rows| && rows[i].strategy == rows[j].strategy ::
      rows[i].state == Closed || rows[j].state == Closed
  }

  predicate SizesAllowed(c: Cycle) { c.perpOpen.raw >= 0 && c.spotOpen.raw >= 0 }

  function Create(s: Store, c: Cycle): (Store, Result) {
    var row := c.(revision := c.revision + 1);
    var rows := s.rows + [row];
    if Find(s.rows, c.id).Some? || !OneActive(rows) || !SizesAllowed(row) then (s, Refused)
    else
      (Store(rows, s.events + [CycleEvent(c.id, row.revision, None, c.state)], s.handles + {row}), Ok(row))
  }

  /** The latest cycle of the strategy that is neither closed nor faulted. */
  function GetActive(rows: seq<Cycle>, strategy: string): (r: Option<Cycle>)
    ensures r.Some? ==> r.value in rows && r.value.strategy == strategy && r.value.state !in {Closed, Faulted}
    ensures r.None? ==> forall c <- rows :: c.strategy != strategy || c.state in {Closed, Faulted}
  {
    if rows == [] then None else
    var c := rows[|rows| - 1];
    if c.strategy == strategy && c.state !in {Closed, Faulted} then Some(c)
    else GetActive(rows[..|rows| - 1], strategy)
  }

  function OrElse<T>(a: Option<T>, b: Option<T>): Option<T> { if a.Some? then a else b }

  /** Client ids are only ever filled in. */
  function Coalesce(a: ClientIds, b: ClientIds): ClientIds {
    ClientIds(OrElse(a.spotEntry, b.spotEntry), OrElse(a.perpEntry, b.perpEntry),
              OrElse(a.compensation, b.compensation), OrElse(a.perpExit, b.perpExit), OrElse(a.spotExit, b.spotExit))
  }

  /** What both the row and the returned handle take over from the handle and the updates. */
  function Moved(h: Cycle, to: State, u: Updates): Cycle {
    h.(state := to, revision := h.revision + 1,
       perpOpen := if u.perpOpen.Some? then u.perpOpen.value else h.perpOpen,
       spotOpen := if u.spotOpen.Some? then u.spotOpen.value else h.spotOpen,
       errorCode := OrElse(u.errorCode, h.errorCode),
       errorMessage := OrElse(u.errorMessage, h.errorMessage))
  }

  function MovedRow(row: Cycle, h: Cycle, to: State, u: Updates): Cycle {
    Moved(h, to, u).(id := row.id, strategy := row.strategy, ids := Coalesce(u.ids, row.ids))
  }

  function Transition(s: Store, h: Cycle, to: State, u: Updates): (Store, Result) {
    var at := Find(s.rows, h.id);
    if at.None? || s.rows[at.value].revision != h.revision then (s, Stale)
    else
      var row := MovedRow(s.rows[at.value], h, to, u);
      var rows := s.rows[at.value := row];
      if !SizesAllowed(row) || !OneActive(rows) then (s, Refused)
      else
        var handle := Moved(h, to, u);
        (Store(rows, s.events + [CycleEvent(h.id, row.revision, Some(h.state), to)], s.handles + {handle}), Ok(handle))
  }

  datatype Step =
    | DoCreate(cycle: Cycle)
    | DoGetActive(strategy: string)
    | DoTransition(handle: Cycle, to: State, updates: Updates)

  /** Holders act on handles the store returned; a cycle id is created by one caller only. */
  function Apply(s: Store, t: Step): Store {
    match t
    case DoCreate(c) => Create(s, c).0
    case DoGetActive(strategy) =>
      var c := GetActive(s.rows, strategy);
      if c.Some? then s.(handles := s.handles + {c.value}) else s
    case DoTransition(h, to, u) => if h in s.handles then Transition(s, h, to, u).0 else s
  }

  function Run(steps: seq<Step>): Store {
    if steps == [] then EMPTY else Apply(Run(steps[..|steps| - 1]), steps[|steps| - 1])
  }

  // --------------------------------------------------- what a transition writes

  /** The given value, else the one that was there. */
  ghost predicate Takes<T>(after: Option<T>, given: Option<T>, before: Option<T>) {
    after == if given.Some? then given else before
  }

  /**
   A transition that succeeds writes one row: the new state, the next revision, the sizes that are given, the error
   columns that are given, and each client id that is given; every other column and row stays. The sizes and errors
   that are not given are the handle's, the client ids the row's.
   */
  lemma {:induction false} TransitionWrites(s: Store, h: Cycle, to: State, u: Updates, i: nat)
    requires Find(s.rows, h.id) == Some(i) && Transition(s, h, to, u).1.Ok?
    ensures var after := Transition(s, h, to, u).0;
      && |after.rows| == |s.rows| && (forall k | 0 <= k < |s.rows| && k != i :: after.rows[k] == s.rows[k])
      && after.events == s.events + [CycleEvent(h.id, h.revision + 1, Some(h.state), to)]
      && var row, row' := s.rows[i], after.rows[i];
         && row'.id == row.id && row'.strategy == row.strategy && row'.state == to
         && row.revision == h.revision && row'.revision == h.revision + 1
         && row'.perpOpen == (if u.perpOpen.Some? then u.perpOpen.value else h.perpOpen)
         && row'.spotOpen == (if u.spotOpen.Some? then u.spotOpen.value else h.spotOpen)
         && row'.perpOpen.raw >= 0 && row'.spotOpen.raw >= 0
         && Takes(row'.errorCode, u.errorCode, h.errorCode) && Takes(row'.errorMessage, u.errorMessage, h.errorMessage)
         && Takes(row'.ids.spotEntry, u.ids.spotEntry, row.ids.spotEntry)
         && Takes(row'.ids.perpEntry, u.ids.perpEntry, row.ids.perpEntry)
         && Takes(row'.ids.compensation, u.ids.compensation, row.ids.compensation)
         && Takes(row'.ids.perpExit, u.ids.perpExit, row.ids.perpExit)
         && Takes(row'.ids.spotExit, u.ids.spotExit, row.ids.spotExit)
  {
    hide Find, OneActive;
  }

  /** The handle it returns shows that row, but for the client ids: those stay the old handle's. */
  lemma {:induction false} HandleShowsRow(s: Store, h: Cycle, to: State, u: Updates, i: nat)
    requires Find(s.rows, h.id) == Some(i) && Transition(s, h, to, u).1.Ok?
    ensures var row := Transition(s, h, to, u).0.rows[i];
      Transition(s, h, to, u).1.handle == row.(strategy := h.strategy, ids := h.ids)
  {
    hide Find, OneActive;
  }

  /** Exactly a stale revision is stale; otherwise the sizes and the one-open-cycle index decide. */
  lemma {:induction false} TransitionSucceedsIff(s: Store, h: Cycle, to: State, u: Updates, i: nat)
    requires Find(s.rows, h.id) == Some(i) && OneActive(s.rows)
    ensures Transition(s, h, to, u).1.Stale? <==> s.rows[i].revision != h.revision
    ensures Transition(s, h, to, u).1.Ok? <==>
      && s.rows[i].revision == h.revision
      && (if u.perpOpen.Some? then u.perpOpen.value else h.perpOpen).raw >= 0
      && (if u.spotOpen.Some? then u.spotOpen.value else h.spotOpen).raw >= 0
      && (to == Closed || forall k | 0 <= k < |s.rows| && k != i ::
            s.rows[k].strategy == s.rows[i].strategy ==> s.rows[k].state == Closed)
  {
    hide Find, OneActive;
    OneActiveAfterIff(s.rows, i, MovedRow(s.rows[i], h, to, u));
  }

  lemma {:induction false} OneActiveAfterIff(rows: seq<Cycle>, i: nat, row: Cycle)
    requires i < |rows| && OneActive(rows) && row.strategy == rows[i].strategy
    ensures OneActive(rows[i := row]) <==>
      row.state == Closed || forall k | 0 <= k < |rows| && k != i ::
        rows[k].strategy == rows[i].strategy ==> rows[k].state == Closed
  {
    var after := rows[i := row];
    if OneActive(after) && row.state != Closed {
      forall k | 0 <= k < |rows| && k != i && rows[k].strategy == rows[i].strategy ensures rows[k].state == Closed {
        assert after[k].strategy == after[i].strategy;
      }
    }
  }

  // ---------------------------------------------------------------- the chain

  /** The events of one cycle, oldest first. */
  ghost function EventsOf(events: seq<CycleEvent>, id: nat): seq<CycleEvent> {
    if events == [] then [] else
    var last := events[|events| - 1];
    EventsOf(events[..|events| - 1], id) + (if last.cycle == id then [last] else [])
  }

  /** Contiguous revisions, each leaving the state the one before entered; the first is the creation. */
  ghost predicate Chain(events: seq<CycleEvent>) {
    && (events != [] ==> events[0].from == None)
    && forall i | 0 < i < |events| ::
         events[i].revision == events[i - 1].revision + 1 && events[i].from == Some(events[i - 1].to)
  }

  /** The chain ends at the row. */
  ghost predicate EndsAt(events: seq<CycleEvent>, row: Cycle) {
    events != [] && events[|events| - 1].revision == row.revision && events[|events| - 1].to == row.state
  }

  /** A current handle shows the row, except for client ids filled in since it was first read. */
  ghost predicate Shows(h: Cycle, row: Cycle) {
    h.(ids := row.ids) == row
  }

  ghost predicate UniqueIds(rows: seq<Cycle>) {
    forall i, j | 0 <= i < j < |rows| :: rows[i].id != rows[j].id
  }

  ghost predicate CycleOk(s: Store, id: nat) {
    var at, events := Find(s.rows, id), EventsOf(s.events, id);
    if at.None? then events == [] else Chain(events) && EndsAt(events, s.rows[at.value])
  }

  /** A handle is never ahead of its row, and shows it when they are at the same revision. */
  ghost predicate HandleOk(rows: seq<Cycle>, h: Cycle) {
    var at := Find(rows, h.id);
    at.Some? && h.revision <= rows[at.value].revision
      && (h.revision == rows[at.value].revision ==> Shows(h, rows[at.value]))
  }

  ghost predicate Inv(s: Store) {
    && UniqueIds(s.rows) && OneActive(s.rows)
    && (forall id :: CycleOk(s, id))
    && (forall h <- s.handles :: HandleOk(s.rows, h))
  }

  lemma {:induction false} FindAppend(rows: seq<Cycle>, c: Cycle, id: nat)
    ensures Find(rows + [c], id) ==
            if Find(rows, id).Some? then Find(rows, id) else if c.id == id then Some(|rows|) else None
  {
    if rows == [] {
      assert rows + [c] == [c] && [c][1..] == [];
    } else {
      assert (rows + [c])[1..] == rows[1..] + [c];
      FindAppend(rows[1..], c, id);
    }
  }

  lemma {:induction false} FindUpdate(rows: seq<Cycle>, i: nat, c: Cycle, id: nat)
    requires i < |rows| && c.id == rows[i].id
    ensures Find(rows[i := c], id) == Find(rows, id)
  {
    if i > 0 {
      assert rows[i := c][1..] == rows[1..][i - 1 := c];
      FindUpdate(rows[1..], i - 1, c, id);
    } else {
      assert rows[i := c][1..] == rows[1..];
    }
  }

  lemma {:induction false} EventsAppend(events: seq<CycleEvent>, e: CycleEvent, id: nat)
    ensures EventsOf(events + [e], id) == EventsOf(events, id) + (if e.cycle == id then [e] else [])
  {
    assert (events + [e])[..|events|] == events;
  }

  lemma {:induction false} FindIs(rows: seq<Cycle>, i: nat)
    requires i < |rows| && UniqueIds(rows)
    ensures Find(rows, rows[i].id) == Some(i)
  {
  }

  lemma {:induction false} CreateKeepsCycle(s: Store, c: Cycle, id: nat)
    requires CycleOk(s, id) && Create(s, c).1.Ok?
    ensures CycleOk(Create(s, c).0, id)
  {
    var row := c.(revision := c.revision + 1);
    EventsAppend(s.events, CycleEvent(c.id, row.revision, None, c.state), id);
    FindAppend(s.rows, row, id);
  }

  lemma {:induction false} CreateKeepsInv(s: Store, c: Cycle)
    requires Inv(s)
    ensures Inv(Create(s, c).0)
  {
    hide OneActive, CycleOk, HandleOk;
    var (after, r) := Create(s, c);
    if r.Ok? {
      forall id ensures CycleOk(after, id) { CreateKeepsCycle(s, c, id); }
      forall h <- after.handles ensures HandleOk(after.rows, h) { CreateKeepsHandle(s, c, h); }
    }
  }

  lemma {:induction false} CreateKeepsHandle(s: Store, c: Cycle, h: Cycle)
    requires Create(s, c).1.Ok? && h in Create(s, c).0.handles && (h in s.handles ==> HandleOk(s.rows, h))
    ensures HandleOk(Create(s, c).0.rows, h)
  {
    FindAppend(s.rows, c.(revision := c.revision + 1), h.id);
  }

  lemma {:induction false} GetActiveKeepsInv(s: Store, strategy: string)
    requires Inv(s)
    ensures Inv(Apply(s, DoGetActive(strategy)))
  {
    hide OneActive, Find;
    var c := GetActive(s.rows, strategy);
    if c.Some? {
      var i :| 0 <= i < |s.rows| && s.rows[i] == c.value;
      FindIs(s.rows, i);
      assert HandleOk(s.rows, c.value);
      forall id ensures CycleOk(Apply(s, DoGetActive(strategy)), id) { assert CycleOk(s, id); }
    }
  }

  lemma {:induction false} TransitionKeepsCycle(s: Store, h: Cycle, to: State, u: Updates, id: nat)
    requires CycleOk(s, id) && HandleOk(s.rows, h) && Transition(s, h, to, u).1.Ok?
    ensures CycleOk(Transition(s, h, to, u).0, id)
  {
    hide OneActive;
    var at := Find(s.rows, h.id).value;
    var row := MovedRow(s.rows[at], h, to, u);
    EventsAppend(s.events, CycleEvent(h.id, row.revision, Some(h.state), to), id);
    FindUpdate(s.rows, at, row, id);
  }

  lemma {:induction false} TransitionKeepsHandle(s: Store, h: Cycle, to: State, u: Updates, other: Cycle)
    requires HandleOk(s.rows, h) && Transition(s, h, to, u).1.Ok?
    requires other == Moved(h, to, u) || HandleOk(s.rows, other)
    ensures HandleOk(Transition(s, h, to, u).0.rows, other)
  {
    hide OneActive;
    var at := Find(s.rows, h.id).value;
    FindUpdate(s.rows, at, MovedRow(s.rows[at], h, to, u), other.id);
  }

  lemma {:induction false} TransitionKeepsInv(s: Store, h: Cycle, to: State, u: Updates)
    requires Inv(s) && h in s.handles
    ensures Inv(Transition(s, h, to, u).0)
  {
    hide OneActive, CycleOk, HandleOk;
    var (after, r) := Transition(s, h, to, u);
    if r.Ok? {
      forall id ensures CycleOk(after, id) { TransitionKeepsCycle(s, h, to, u, id); }
      forall other <- after.handles ensures HandleOk(after.rows, other) { TransitionKeepsHandle(s, h, to, u, other); }
    }
  }

  lemma {:induction false} RunKeepsInv(steps: seq<Step>)
    ensures Inv(Run(steps))
  {
    if steps != [] {
      var s := Run(steps[..|steps| - 1]);
      RunKeepsInv(steps[..|steps| - 1]);
      match steps[|steps| - 1]
      case DoCreate(c) => CreateKeepsInv(s, c);
      case DoGetActive(strategy) => GetActiveKeepsInv(s, strategy);
      case DoTransition(h, to, u) => if h in s.handles { TransitionKeepsInv(s, h, to, u); }
    }
  }

  // ----------------------------------------------------------------- theorems

  /** With any number of concurrent holders, a cycle's events form one chain that ends at its row. */
  lemma {:induction false} EventsFormOneChain(steps: seq<Step>, i: nat)
    requires i < |Run(steps).rows|
    ensures var s := Run(steps);
      Chain(EventsOf(s.events, s.rows[i].id)) && EndsAt(EventsOf(s.events, s.rows[i].id), s.rows[i])
  {
    hide OneActive;
    RunKeepsInv(steps);
    FindIs(Run(steps).rows, i);
    assert CycleOk(Run(steps), Run(steps).rows[i].id);
  }

  /** A stale handle fails and changes nothing; a current one shows the row it moves. */
  lemma {:induction false} HandleIsCurrentOrStale(steps: seq<Step>, h: Cycle, to: State, u: Updates)
    requires h in Run(steps).handles
    ensures var s := Run(steps);
      var at := Find(s.rows, h.id);
      && at.Some?
      && (h.revision != s.rows[at.value].revision ==>
            h.revision < s.rows[at.value].revision && Transition(s, h, to, u) == (s, Stale))
      && (h.revision == s.rows[at.value].revision ==> Shows(h, s.rows[at.value]))
  {
    RunKeepsInv(steps);
  }

  ghost function RevisionOf(s: Store, id: nat): int {
    if Find(s.rows, id).Some? then s.rows[Find(s.rows, id).value].revision else -1
  }

  lemma {:induction false} StepKeepsRevisions(s: Store, t: Step, id: nat)
    ensures RevisionOf(Apply(s, t), id) >= RevisionOf(s, id)
  {
    match t
    case DoCreate(c) => FindAppend(s.rows, c.(revision := c.revision + 1), id);
    case DoGetActive(_) =>
    case DoTransition(h, to, u) =>
      var at := Find(s.rows, h.id);
      if at.Some? { FindUpdate(s.rows, at.value, MovedRow(s.rows[at.value], h, to, u), id); }
  }

  lemma {:induction false} RevisionsOnlyGrow(steps: seq<Step>, later: seq<Step>, id: nat)
    ensures RevisionOf(Run(steps + later), id) >= RevisionOf(Run(steps), id)
  {
    if later == [] {
      assert steps + later == steps;
    } else {
      var front := steps + later[..|later| - 1];
      assert (steps + later)[..|steps + later| - 1] == front;
      RevisionsOnlyGrow(steps, later[..|later| - 1], id);
      StepKeepsRevisions(Run(front), later[|later| - 1], id);
    }
  }

  lemma {:induction false} SuccessAdvances(s: Store, h: Cycle, to: State, u: Updates)
    requires h in s.handles && Transition(s, h, to, u).1.Ok?
    ensures RevisionOf(Apply(s, DoTransition(h, to, u)), h.id) == h.revision + 1
  {
    var at := Find(s.rows, h.id).value;
    FindUpdate(s.rows, at, MovedRow(s.rows[at], h, to, u), h.id);
  }

  /** Of all holders of one revision at most one succeeds, whatever happens in between. */
  lemma {:induction false} OneHolderWins(
    steps: seq<Step>, h: Cycle, to: State, u: Updates, later: seq<Step>, other: Cycle, to': State, u': Updates)
    requires var s := Run(steps);
      h in s.handles && other.id == h.id && other.revision == h.revision && Transition(s, h, to, u).1.Ok?
    ensures Transition(Run(steps + [DoTransition(h, to, u)] + later), other, to', u').1.Stale?
  {
    var won := steps + [DoTransition(h, to, u)];
    assert won[..|won| - 1] == steps;
    SuccessAdvances(Run(steps), h, to, u);
    RevisionsOnlyGrow(won, later, h.id);
  }

  /** `get_active` has at most one candidate. */
  lemma {:induction false} ActiveIsUnique(steps: seq<Step>, c: Cycle)
    requires var s := Run(steps);
      c in s.rows && c.state !in {Closed, Faulted}
    ensures GetActive(Run(steps).rows, c.strategy) == Some(c)
  {
    RunKeepsInv(steps);
    UniqueActive(Run(steps).rows, c);
  }

  lemma {:induction false} UniqueActive(rows: seq<Cycle>, c: Cycle)
    requires OneActive(rows) && c in rows && c.state !in {Closed, Faulted}
    ensures GetActive(rows, c.strategy) == Some(c)
  {
    hide GetActive;
    var a := GetActive(rows, c.strategy);
    assert a.Some?;
    var i :| 0 <= i < |rows| && rows[i] == c;
    var j :| 0 <= j < |rows| && rows[j] == a.value;
    assert i == j;
  }

  /** The strategy has no cycle, or only closed ones. */
  ghost predicate AllClosed(rows: seq<Cycle>, strategy: string) {
    forall r <- rows :: r.strategy == strategy ==> r.state == Closed
  }

  lemma {:induction false} OneMoreIsActiveIff(rows: seq<Cycle>, c: Cycle)
    requires OneActive(rows)
    ensures OneActive(rows + [c]) <==> c.state == Closed || AllClosed(rows, c.strategy)
  {
    var more := rows + [c];
    if OneActive(more) && c.state != Closed {
      forall r <- rows | r.strategy == c.strategy ensures r.state == Closed {
        var i :| 0 <= i < |rows| && rows[i] == r;
        assert more[i] == r && more[|rows|] == c;
      }
    }
  }

  /** After any run a creation succeeds exactly for a new id and allowed sizes when the strategy's cycles are all closed. */
  lemma {:induction false} CreateSucceedsIff(steps: seq<Step>, c: Cycle)
    ensures var s := Run(steps);
      Create(s, c).1.Ok? <==>
        && Find(s.rows, c.id).None? && SizesAllowed(c)
        && (c.state == Closed || AllClosed(s.rows, c.strategy))
  {
    hide OneActive, Find, Run, AllClosed;
    RunKeepsInv(steps);
    OneMoreIsActiveIff(Run(steps).rows, c.(revision := c.revision + 1));
  }

  /** A strategy without an active cycle is refused another one if and only if it has a faulted one. */
  lemma {:induction false} FaultedCycleBlocksCreate(steps: seq<Step>, c: Cycle)
    requires var s := Run(steps);
      GetActive(s.rows, c.strategy).None? && Find(s.rows, c.id).None?
    requires SizesAllowed(c) && c.state != Closed
    ensures var s := Run(steps);
      Create(s, c) == (s, Refused) <==> exists r <- s.rows :: r.strategy == c.strategy && r.state == Faulted
  {
    hide OneActive, Find, Run;
    CreateSucceedsIff(steps, c);
  }

  const NO_IDS: ClientIds := ClientIds(None, None, None, None, None)

  function NewCycle(id: nat): Cycle { Cycle(id, "s", EnteringSpot, ZERO, ZERO, NO_IDS, None, None, 0) }

  lemma {:induction false} FirstIsCreated()
    ensures var first := NewCycle(0).(revision := 1);
      Run([DoCreate(NewCycle(0))]) == Store([first], [CycleEvent(0, 1, None, EnteringSpot)], {first})
  {
    var first := NewCycle(0).(revision := 1);
    assert [DoCreate(NewCycle(0))][..0] == [] && Run([]) == EMPTY;
    assert [] + [first] == [first];
    assert [] + [CycleEvent(0, 1, None, EnteringSpot)] == [CycleEvent(0, 1, None, EnteringSpot)];
    assert Create(EMPTY, NewCycle(0)).0 == Store([first], [CycleEvent(0, 1, None, EnteringSpot)], {first});
  }

  /** A run: create a cycle, let it fault, and try to create another one. */
  lemma {:induction false} FaultedCycleIsNotReplaced()
    ensures var first := NewCycle(0).(revision := 1);
      var s := Run([DoCreate(NewCycle(0)), DoTransition(first, Faulted, Updates(None, None, NO_IDS, None, None))]);
      && s.rows == [first.(state := Faulted, revision := 2)]
      && GetActive(s.rows, "s") == None && Create(s, NewCycle(1)) == (s, Refused)
  {
    var first := NewCycle(0).(revision := 1);
    var create, fault := DoCreate(NewCycle(0)), DoTransition(first, Faulted, Updates(None, None, NO_IDS, None, None));
    assert [create][..0] == [] && [create, fault][..1] == [create];
    FirstIsCreated();
    var t := Run([create]);
    var row := first.(state := Faulted, revision := 2);
    assert t.rows[0 := row] == [row];
    assert GetActive([], "s") == None && [row][..0] == [];
    var rows := [row] + [NewCycle(1).(revision := 1)];
    assert rows[0].state != Closed && rows[1].state != Closed && rows[0].strategy == rows[1].strategy;
  }

  // ---------------------------------------------------------------- the store

  class CycleTable {
    var rows: seq<Cycle>
    var events: seq<CycleEvent>
    ghost var handles: set<Cycle>

    ghost function Contents(): Store
      reads this
    {
      Store(rows, events, handles)
    }

    method CreateCycle(c: Cycle) returns (r: Result)
      modifies this
      ensures (Contents(), r) == Create(old(Contents()), c)
    {
      var row := c.(revision := c.revision + 1);
      if Find(rows, c.id).Some? || !OneActive(rows + [row]) || !SizesAllowed(row) { return Refused; }
      rows := rows + [row];
      events := events + [CycleEvent(c.id, row.revision, None, c.state)];
      handles := handles + {row};
      r := Ok(row);
    }

    /** Update the row if it is at the handle's revision, log the event, then advance the handle. */
    method Move(h: Cycle, to: State, u: Updates) returns (r: Result)
      modifies this
      ensures (Contents(), r) == Transition(old(Contents()), h, to, u)
    {
      var at := Find(rows, h.id);
      if at.None? || rows[at.value].revision != h.revision { return Stale; }
      var row := MovedRow(rows[at.value], h, to, u);
      if !SizesAllowed(row) || !OneActive(rows[at.value := row]) { return Refused; }
      rows := rows[at.value := row];
      events := events + [CycleEvent(h.id, h.revision + 1, Some(h.state), to)];
      var handle := h.(state := to, revision := h.revision + 1);
      if u.perpOpen.Some? { handle := handle.(perpOpen := u.perpOpen.value); }
      if u.spotOpen.Some? { handle := handle.(spotOpen := u.spotOpen.value); }
      handle := handle.(errorCode := OrElse(u.errorCode, h.errorCode), errorMessage := OrElse(u.errorMessage, h.errorMessage));
      handles := handles + {handle};
      r := Ok(handle);
    }
  }
}
