/**
 The children of quote-plan commands. A child is claimable only when every other cancel on its plan
 item has durably succeeded; workers may crash, leases are reaped, and stale workers may still record.
 Items and commands are numbered in insertion order; each transaction is one step.
 */
module QuotePlan {
  import opened Options

  datatype ChildStatus =
    | Pending | Processing | Succeeded | Failed | Unknown | Cancelled | Superseded | Expired | Blocked

  datatype ActionType = Place | Cancel | Modify

  datatype Item = Item(
    command: nat, planItem: Option<nat>, ordinal: nat, action: ActionType,
    status: ChildStatus, attempts: nat, availableAt: int, lockedAt: Option<int>)

  datatype ParentStatus = Open(processing: bool) | Settled(outcome: Outcome)

  datatype Outcome = AllSucceeded | SomeFailed | SomeUnknown

  /** A recorded dispatch attempt together with the status it settled its child to. */
  datatype Attempt = Attempt(item: nat, attempt: nat, action: ActionType, status: ChildStatus)

  /** handed holds the (item, attempt) pairs workers have been given. */
  datatype Store = Store(
    items: seq<Item>, parents: seq<ParentStatus>, log: seq<Attempt>, handed: set<(nat, nat)>)

  const EMPTY: Store := Store([], [], [], {})

  predicate OpenChild(s: ChildStatus) { s == Pending || s == Processing }

  // -------------------------------------------------------------------- claim

  function Reaped(i: Item, cutoff: int): Item {
    if i.status == Processing && i.lockedAt.Some? && i.lockedAt.value < cutoff
    then i.(status := Pending, lockedAt := None) else i
  }

  function Reap(items: seq<Item>, cutoff: int): (r: seq<Item>)
    ensures |r| == |items| && forall k | 0 <= k < |items| :: r[k] == Reaped(items[k], cutoff)
  {
    seq(|items|, k requires 0 <= k < |items| => Reaped(items[k], cutoff))
  }

  /** An unsettled or failed cancel of the same plan item. */
  predicate Blocks(items: seq<Item>, k: nat, j: nat)
    requires k < |items| && j < |items|
  {
    items[j].planItem == items[k].planItem && items[j].action == Cancel && j != k && items[j].status != Succeeded
  }

  predicate Claimable(items: seq<Item>, parents: seq<ParentStatus>, k: nat, now: int)
    requires k < |items|
  {
    && items[k].status == Pending && items[k].availableAt <= now && items[k].planItem.Some?
    && items[k].command < |parents| && parents[items[k].command].Open?
    && forall j | 0 <= j < |items| :: !Blocks(items, k, j)
  }

  predicate Before(a: Item, b: Item) {
    a.command < b.command || (a.command == b.command && a.ordinal < b.ordinal)
  }

  /** The claimable child that comes first by (command, ordinal) among the first n, skipping locked rows. */
  function First(items: seq<Item>, parents: seq<ParentStatus>, now: int, busy: set<nat>, n: nat): (r: Option<nat>)
    requires n <= |items|
    ensures r.Some? ==> r.value < n && Claimable(items, parents, r.value, now) && r.value !in busy
  {
    if n == 0 then None else
    var best := First(items, parents, now, busy, n - 1);
    var k := n - 1;
    if k in busy || !Claimable(items, parents, k, now) then best
    else if best.None? || Before(items[k], items[best.value]) then Some(k) else best
  }

  /** No claimable, unlocked child precedes the chosen one; None means there is none at all. */
  lemma {:induction false} FirstIsLeast(
    items: seq<Item>, parents: seq<ParentStatus>, now: int, busy: set<nat>, n: nat, j: nat)
    requires j < n <= |items| && j !in busy && Claimable(items, parents, j, now)
    ensures var r := First(items, parents, now, busy, n);
      r.Some? && !Before(items[j], items[r.value])
  {
    if j < n - 1 { FirstIsLeast(items, parents, now, busy, n - 1, j); }
  }

  datatype Child = Child(item: nat, attempt: nat)

  function Claim(s: Store, lease: int, now: int, busy: set<nat>): (Store, Option<Child>) {
    var items := Reap(s.items, now - lease);
    match First(items, s.parents, now, busy, |items|)
    case None => (s.(items := items), None)
    case Some(k) =>
      var attempt := items[k].attempts + 1;
      (s.(items := items[k := items[k].(status := Processing, lockedAt := Some(now), attempts := attempt)],
          parents := s.parents[items[k].command := Open(true)],
          handed := s.handed + {(k, attempt)}),
       Some(Child(k, attempt)))
  }

  // ------------------------------------------------------------------- settle

  /** The statuses of one command's children. */
  function StatusesOf(items: seq<Item>, command: nat): seq<ChildStatus> {
    if items == [] then [] else
    var last := items[|items| - 1];
    StatusesOf(items[..|items| - 1], command) + (if last.command == command then [last.status] else [])
  }

  function Aggregate(statuses: seq<ChildStatus>): Outcome {
    if Unknown in statuses then SomeUnknown
    else if statuses != [] && (forall s <- statuses :: s == Succeeded) then AllSucceeded
    else SomeFailed
  }

  function FinishParent(items: seq<Item>, parents: seq<ParentStatus>, command: nat): seq<ParentStatus> {
    var statuses := StatusesOf(items, command);
    if (exists s <- statuses :: OpenChild(s)) || command >= |parents| then parents
    else parents[command := Settled(Aggregate(statuses))]
  }

  /** Record one attempt and settle the child; a second record of the same attempt aborts. */
  function RecordAttempt(s: Store, c: Child, status: ChildStatus): (Store, bool) {
    if c.item >= |s.items| || (exists a <- s.log :: a.item == c.item && a.attempt == c.attempt) then (s, false)
    else
      var i := s.items[c.item];
      var items := s.items[c.item := i.(status := status, lockedAt := None)];
      (s.(items := items, parents := FinishParent(items, s.parents, i.command),
          log := s.log + [Attempt(c.item, c.attempt, i.action, status)]),
       true)
  }

  datatype Decision = GuardSuperseded | GuardExpired | GuardBlocked

  function DecisionStatus(d: Decision): ChildStatus {
    match d
    case GuardSuperseded => Superseded
    case GuardExpired => Expired
    case GuardBlocked => Blocked
  }

  /** Finish a child the guard did not let through; only while it is still processing. */
  function FinishWithoutSend(s: Store, item: nat, d: Decision): Store {
    if item >= |s.items| || s.items[item].status != Processing then s
    else
      var i := s.items[item];
      var items := s.items[item := i.(status := DecisionStatus(d), lockedAt := None)];
      s.(items := items, parents := FinishParent(items, s.parents, i.command))
  }

  // --------------------------------------------------------------------- runs

  datatype NewChild = NewChild(planItem: Option<nat>, action: ActionType, availableAt: int)

  /** The children of a plan item are inserted together with their command. */
  predicate FreshPlan(s: Store, children: seq<NewChild>) {
    forall c <- children, i <- s.items :: c.planItem.Some? ==> i.planItem != c.planItem
  }

  function InsertPlan(s: Store, children: seq<NewChild>): Store {
    if !FreshPlan(s, children) then s
    else
      s.(items := s.items + seq(|children|, k requires 0 <= k < |children| =>
           Item(|s.parents|, children[k].planItem, k, children[k].action, Pending, 0, children[k].availableAt, None)),
         parents := s.parents + [Open(false)])
  }

  datatype Step =
    | Insert(children: seq<NewChild>)
    | ClaimChild(lease: int, now: int, busy: set<nat>)
    | Record(child: Child, status: ChildStatus)
    | FinishUnsent(item: nat, decision: Decision)

  /** Workers record only children they were handed, with a settled status. */
  predicate Enabled(s: Store, t: Step) {
    t.Record? ==> (t.child.item, t.child.attempt) in s.handed && !OpenChild(t.status)
  }

  function Apply(s: Store, t: Step): Store {
    if !Enabled(s, t) then s else
    match t
    case Insert(children) => InsertPlan(s, children)
    case ClaimChild(lease, now, busy) => Claim(s, lease, now, busy).0
    case Record(child, status) => RecordAttempt(s, child, status).0
    case FinishUnsent(item, d) => FinishWithoutSend(s, item, d)
  }

  function Run(steps: seq<Step>): Store {
    if steps == [] then EMPTY else Apply(Run(steps[..|steps| - 1]), steps[|steps| - 1])
  }

  // ------------------------------------------------ replacement ordering

  /** Some settlement before position n recorded the child as succeeded. */
  ghost predicate SucceededBefore(log: seq<Attempt>, item: nat, n: nat) {
    exists k | 0 <= k < n && k < |log| :: log[k].item == item && log[k].status == Succeeded
  }

  /** Another cancel on the same plan item. */
  predicate CancelOf(items: seq<Item>, item: nat, j: nat) {
    item < |items| && j < |items| && j != item && items[j].action == Cancel &&
    items[item].planItem.Some? && items[j].planItem == items[item].planItem
  }

  ghost predicate OrderInv(s: Store) {
    && (forall j | 0 <= j < |s.items| && s.items[j].status == Succeeded :: SucceededBefore(s.log, j, |s.log|))
    && (forall h <- s.handed :: h.0 < |s.items| && s.items[h.0].planItem.Some?)
    && (forall h, j | h in s.handed && CancelOf(s.items, h.0, j) :: SucceededBefore(s.log, j, |s.log|))
    && (forall k | 0 <= k < |s.log| :: (s.log[k].item, s.log[k].attempt) in s.handed)
    && (forall k, j | 0 <= k < |s.log| && CancelOf(s.items, s.log[k].item, j) :: SucceededBefore(s.log, j, k))
  }

  lemma {:induction false} SucceededStays(log: seq<Attempt>, a: Attempt, item: nat, n: nat)
    requires n <= |log| && SucceededBefore(log, item, n)
    ensures SucceededBefore(log + [a], item, n) && SucceededBefore(log + [a], item, |log| + 1)
  {
    var k :| 0 <= k < n && k < |log| && log[k].item == item && log[k].status == Succeeded;
    assert (log + [a])[k] == log[k];
  }

  lemma {:induction false} InsertKeepsOrder(s: Store, children: seq<NewChild>)
    requires OrderInv(s)
    ensures OrderInv(InsertPlan(s, children))
  {
    if FreshPlan(s, children) {
      var after := InsertPlan(s, children);
      forall k, i | |s.items| <= k < |after.items| && 0 <= i < |s.items|
        ensures after.items[k].planItem.Some? ==> after.items[k].planItem != s.items[i].planItem
      {
        assert children[k - |s.items|] in children && s.items[i] in s.items;
      }
      assert forall i: nat, j: nat :: i < |s.items| && CancelOf(after.items, i, j) ==> CancelOf(s.items, i, j);
    }
  }

  lemma {:induction false} ClaimKeepsOrder(s: Store, lease: int, now: int, busy: set<nat>)
    requires OrderInv(s)
    ensures OrderInv(Claim(s, lease, now, busy).0)
  {
    var items := Reap(s.items, now - lease);
    var after := Claim(s, lease, now, busy).0;
    assert forall item, j :: CancelOf(after.items, item, j) <==> CancelOf(s.items, item, j);
    var first := First(items, s.parents, now, busy, |items|);
    if first.Some? {
      var k := first.value;
      forall j | CancelOf(s.items, k, j) ensures SucceededBefore(s.log, j, |s.log|) {
        assert !Blocks(items, k, j);
      }
    }
  }

  /** A settlement changes one item's status and, on record, appends to the log. */
  lemma {:induction false} RecordKeepsOrder(s: Store, c: Child, status: ChildStatus)
    requires OrderInv(s) && (c.item, c.attempt) in s.handed
    ensures OrderInv(RecordAttempt(s, c, status).0)
  {
    var (after, ok) := RecordAttempt(s, c, status);
    if ok {
      var a := after.log[|s.log|];
      assert forall item, j :: CancelOf(after.items, item, j) <==> CancelOf(s.items, item, j);
      forall j, n | 0 <= n <= |s.log| && SucceededBefore(s.log, j, n)
        ensures SucceededBefore(after.log, j, n) && SucceededBefore(after.log, j, |after.log|)
      {
        SucceededStays(s.log, a, j, n);
      }
      forall j | SucceededBefore(s.log, j, |s.log|) ensures SucceededBefore(after.log, j, |after.log|) {
        SucceededStays(s.log, a, j, |s.log|);
      }
      if status == Succeeded { assert after.log[|s.log|].item == c.item; }
      assert CancelOf(s.items, c.item, c.item) == false;
    }
  }

  lemma {:induction false} FinishKeepsOrder(s: Store, item: nat, d: Decision)
    requires OrderInv(s)
    ensures OrderInv(FinishWithoutSend(s, item, d))
  {
    var after := FinishWithoutSend(s, item, d);
    assert forall k, j :: CancelOf(after.items, k, j) <==> CancelOf(s.items, k, j);
  }

  lemma {:induction false} StepKeepsOrder(s: Store, t: Step)
    requires OrderInv(s)
    ensures OrderInv(Apply(s, t))
  {
    hide OrderInv;
    if Enabled(s, t) {
      match t
      case Insert(children) => InsertKeepsOrder(s, children);
      case ClaimChild(lease, now, busy) => ClaimKeepsOrder(s, lease, now, busy);
      case Record(child, status) => RecordKeepsOrder(s, child, status);
      case FinishUnsent(item, d) => FinishKeepsOrder(s, item, d);
    }
  }

  lemma {:induction false} RunKeepsOrder(steps: seq<Step>)
    ensures OrderInv(Run(steps))
  {
    if steps != [] {
      RunKeepsOrder(steps[..|steps| - 1]);
      StepKeepsOrder(Run(steps[..|steps| - 1]), steps[|steps| - 1]);
    }
  }

  /**
   Across crashes, reaped leases and late records of stale workers: every recorded placement attempt
   comes after a recorded success of every other cancel on its plan item.
   */
  lemma {:induction false} PlacementsFollowTheirCancels(steps: seq<Step>, k: nat, j: nat)
    requires var s := Run(steps);
      k < |s.log| && s.log[k].action == Place && CancelOf(s.items, s.log[k].item, j)
    ensures SucceededBefore(Run(steps).log, j, k)
  {
    RunKeepsOrder(steps);
  }

  // --------------------------------------------------------- settled parents

  ghost predicate HasOpenChild(items: seq<Item>, command: nat) {
    exists i | 0 <= i < |items| :: items[i].command == command && OpenChild(items[i].status)
  }

  ghost predicate HasChild(items: seq<Item>, command: nat) {
    exists i | 0 <= i < |items| :: items[i].command == command
  }

  /** Settled exactly when every child is, and then to the aggregate of the children. */
  ghost predicate ParentAgrees(items: seq<Item>, parent: ParentStatus, command: nat) {
    && (parent.Settled? ==> !HasOpenChild(items, command) && parent.outcome == Aggregate(StatusesOf(items, command)))
    && (parent.Open? && HasChild(items, command) ==> HasOpenChild(items, command))
  }

  ghost predicate ParentInv(s: Store) {
    && (forall i | 0 <= i < |s.items| :: s.items[i].command < |s.parents|)
    && forall c | 0 <= c < |s.parents| :: ParentAgrees(s.items, s.parents[c], c)
  }

  lemma {:induction false} StatusesOfMembers(items: seq<Item>, command: nat)
    ensures (exists x <- StatusesOf(items, command) :: OpenChild(x)) <==> HasOpenChild(items, command)
  {
    if items != [] {
      var front, last := items[..|items| - 1], items[|items| - 1];
      StatusesOfMembers(front, command);
      assert HasOpenChild(items, command) <==>
             HasOpenChild(front, command) || (last.command == command && OpenChild(last.status)) by {
        assert forall i | 0 <= i < |front| :: front[i] == items[i];
      }
    }
  }

  /** Two tables that agree on a command's children. */
  ghost predicate SameChildren(a: seq<Item>, b: seq<Item>, command: nat) {
    |a| == |b| && forall i | 0 <= i < |a| ::
      a[i].command == b[i].command && (a[i].command == command ==> a[i].status == b[i].status)
  }

  lemma {:induction false} SameStatuses(a: seq<Item>, b: seq<Item>, command: nat)
    requires SameChildren(a, b, command)
    ensures StatusesOf(a, command) == StatusesOf(b, command)
  {
    if a != [] { SameStatuses(a[..|a| - 1], b[..|b| - 1], command); }
  }

  lemma {:induction false} SameAgrees(a: seq<Item>, b: seq<Item>, parent: ParentStatus, command: nat)
    requires ParentAgrees(a, parent, command) && SameChildren(a, b, command)
    ensures ParentAgrees(b, parent, command)
  {
    SameStatuses(a, b, command);
  }

  lemma {:induction false} OtherCommandsChildren(items: seq<Item>, more: seq<Item>, command: nat)
    requires forall i <- more :: i.command != command
    ensures StatusesOf(items + more, command) == StatusesOf(items, command)
  {
    if more == [] {
      assert items + more == items;
    } else {
      assert (items + more)[..|items + more| - 1] == items + more[..|more| - 1];
      OtherCommandsChildren(items, more[..|more| - 1], command);
    }
  }

  lemma {:induction false} InsertKeepsParents(s: Store, children: seq<NewChild>)
    requires ParentInv(s)
    ensures ParentInv(InsertPlan(s, children))
  {
    if FreshPlan(s, children) {
      var after := InsertPlan(s, children);
      var more := after.items[|s.items|..];
      assert after.items == s.items + more;
      forall c | 0 <= c < |after.parents| ensures ParentAgrees(after.items, after.parents[c], c) {
        if c < |s.parents| {
          assert ParentAgrees(s.items, s.parents[c], c);
          OtherCommandsChildren(s.items, more, c);
          assert forall i | 0 <= i < |s.items| :: after.items[i] == s.items[i];
        } else if HasChild(after.items, c) {
          assert after.items[|s.items|].status == Pending;
        }
      }
    }
  }

  /** Reaping and claiming move children between open statuses only. */
  lemma {:induction false} OpenMovesKeepAgreement(a: seq<Item>, b: seq<Item>, parent: ParentStatus, command: nat)
    requires |a| == |b| && forall i | 0 <= i < |a| ::
               a[i].command == b[i].command &&
               (a[i].status == b[i].status || (OpenChild(a[i].status) && OpenChild(b[i].status)))
    requires ParentAgrees(a, parent, command)
    ensures ParentAgrees(b, parent, command)
  {
    if parent.Settled? {
      assert SameChildren(a, b, command);
      SameAgrees(a, b, parent, command);
    } else if HasChild(b, command) {
      var i :| 0 <= i < |b| && b[i].command == command;
      assert a[i].command == command;
      var j :| 0 <= j < |a| && a[j].command == command && OpenChild(a[j].status);
      assert OpenChild(b[j].status);
    }
  }

  lemma {:induction false} ClaimKeepsParents(s: Store, lease: int, now: int, busy: set<nat>)
    requires ParentInv(s)
    ensures ParentInv(Claim(s, lease, now, busy).0)
  {
    hide First;
    var after := Claim(s, lease, now, busy).0;
    forall c | 0 <= c < |s.parents| ensures ParentAgrees(after.items, after.parents[c], c) {
      assert after.parents[c] == s.parents[c] || (after.parents[c].Open? && s.parents[c].Open?);
      OpenMovesKeepAgreement(s.items, after.items, s.parents[c], c);
    }
  }

  /** Settling one child re-establishes its parent's agreement. */
  lemma {:induction false} SettleKeepsParents(s: Store, item: nat, row: Item, after: seq<ParentStatus>)
    requires ParentInv(s) && item < |s.items|
    requires row.command == s.items[item].command && !OpenChild(row.status)
    requires after == FinishParent(s.items[item := row], s.parents, row.command)
    ensures |after| == |s.parents|
    ensures forall c | 0 <= c < |after| :: ParentAgrees(s.items[item := row], after[c], c)
  {
    var items := s.items[item := row];
    StatusesOfMembers(items, row.command);
    forall c | 0 <= c < |s.parents| ensures ParentAgrees(items, after[c], c) {
      assert ParentAgrees(s.items, s.parents[c], c);
      if c != row.command {
        assert SameChildren(s.items, items, c);
        SameAgrees(s.items, items, s.parents[c], c);
      } else if HasOpenChild(items, c) {
        var i :| 0 <= i < |items| && items[i].command == c && OpenChild(items[i].status);
        assert s.items[i] == items[i];
      }
    }
  }

  lemma {:induction false} StepKeepsParents(s: Store, t: Step)
    requires ParentInv(s)
    ensures ParentInv(Apply(s, t))
  {
    hide FinishParent, ParentAgrees;
    if Enabled(s, t) {
      match t
      case Insert(children) => InsertKeepsParents(s, children);
      case ClaimChild(lease, now, busy) => ClaimKeepsParents(s, lease, now, busy);
      case Record(child, status) =>
        var (after, ok) := RecordAttempt(s, child, status);
        if ok { SettleKeepsParents(s, child.item, after.items[child.item], after.parents); }
      case FinishUnsent(item, d) =>
        var after := FinishWithoutSend(s, item, d);
        if item < |s.items| && s.items[item].status == Processing {
          SettleKeepsParents(s, item, after.items[item], after.parents);
        }
    }
  }

  /**
   After any run a plan command with at least one child is settled exactly when no child is open, and
   its status is then the aggregate of its children's statuses.
   */
  lemma {:induction false} ParentsAgreeWithChildren(steps: seq<Step>)
    ensures ParentInv(Run(steps))
  {
    if steps != [] {
      ParentsAgreeWithChildren(steps[..|steps| - 1]);
      StepKeepsParents(Run(steps[..|steps| - 1]), steps[|steps| - 1]);
    }
  }

  lemma {:induction false} SettledIffAllChildrenAre(steps: seq<Step>, command: nat)
    requires command < |Run(steps).parents| && HasChild(Run(steps).items, command)
    ensures var s := Run(steps);
      && (s.parents[command].Settled? <==> !HasOpenChild(s.items, command))
      && (s.parents[command].Settled? ==> s.parents[command].outcome == Aggregate(StatusesOf(s.items, command)))
  {
    ParentsAgreeWithChildren(steps);
    assert ParentAgrees(Run(steps).items, Run(steps).parents[command], command);
  }

  lemma {:induction false} StatusIsMember(items: seq<Item>, command: nat, x: ChildStatus)
    ensures x in StatusesOf(items, command) <==>
      exists i | 0 <= i < |items| :: items[i].command == command && items[i].status == x
  {
    if items != [] {
      var front, last := items[..|items| - 1], items[|items| - 1];
      StatusIsMember(front, command, x);
      assert forall i | 0 <= i < |front| :: front[i] == items[i];
    }
  }

  lemma {:induction false} AllSucceededIff(items: seq<Item>, command: nat)
    ensures (forall x <- StatusesOf(items, command) :: x == Succeeded) <==>
      forall i | 0 <= i < |items| :: items[i].command == command ==> items[i].status == Succeeded
  {
    hide StatusesOf;
    forall i | 0 <= i < |items| && items[i].command == command ensures items[i].status in StatusesOf(items, command) {
      StatusIsMember(items, command, items[i].status);
    }
    forall x <- StatusesOf(items, command)
      ensures exists i | 0 <= i < |items| :: items[i].command == command && items[i].status == x
    {
      StatusIsMember(items, command, x);
    }
  }

  /**
   After any run a settled plan command with a child succeeded if and only if every child did, is unknown if and
   only if some child is, and failed otherwise.
   */
  lemma {:induction false} SettledOutcomeIs(steps: seq<Step>, command: nat)
    requires command < |Run(steps).parents| && HasChild(Run(steps).items, command)
    requires Run(steps).parents[command].Settled?
    ensures var items, outcome := Run(steps).items, Run(steps).parents[command].outcome;
      var all := forall i | 0 <= i < |items| :: items[i].command == command ==> items[i].status == Succeeded;
      var unknown := exists i | 0 <= i < |items| :: items[i].command == command && items[i].status == Unknown;
      && (outcome == AllSucceeded <==> all)
      && (outcome == SomeUnknown <==> unknown)
      && (outcome == SomeFailed <==> !all && !unknown)
  {
    hide Run, StatusesOf, HasOpenChild;
    var items := Run(steps).items;
    SettledIffAllChildrenAre(steps, command);
    StatusIsMember(items, command, Unknown);
    AllSucceededIff(items, command);
    var i :| 0 <= i < |items| && items[i].command == command;
    StatusIsMember(items, command, items[i].status);
  }

  /** A child that is not sent takes the status of the guard's decision, and only while it is processing. */
  lemma {:induction false} UnsentTakesDecision(s: Store, item: nat, d: Decision)
    ensures var after := FinishWithoutSend(s, item, d);
      if item < |s.items| && s.items[item].status == Processing then
        && |after.items| == |s.items|
        && after.items[item] == s.items[item].(status := after.items[item].status, lockedAt := None)
        && (d == GuardSuperseded ==> after.items[item].status == Superseded)
        && (d == GuardExpired ==> after.items[item].status == Expired)
        && (d == GuardBlocked ==> after.items[item].status == Blocked)
        && forall k | 0 <= k < |s.items| && k != item :: after.items[k] == s.items[k]
      else after == s
  {
    hide FinishParent;
  }

  /** A recorded attempt gives the child its status and frees it; a second record of the attempt changes nothing. */
  lemma {:induction false} RecordTakesStatus(s: Store, c: Child, status: ChildStatus, again: ChildStatus)
    requires RecordAttempt(s, c, status).1
    ensures var after := RecordAttempt(s, c, status).0;
      && c.item < |s.items| && |after.items| == |s.items|
      && after.items[c.item] == s.items[c.item].(status := status, lockedAt := None)
      && (forall k | 0 <= k < |s.items| && k != c.item :: after.items[k] == s.items[k])
      && after.log == s.log + [Attempt(c.item, c.attempt, s.items[c.item].action, status)]
      && RecordAttempt(after, c, again) == (after, false)
  {
    hide FinishParent;
    var after := RecordAttempt(s, c, status).0;
    assert after.log[|s.log|].item == c.item;
  }

  /** A record is refused exactly for an unknown child or an attempt that is in the log, and then changes nothing. */
  lemma {:induction false} RecordRefusedIff(s: Store, c: Child, status: ChildStatus)
    ensures var (after, recorded) := RecordAttempt(s, c, status);
      && (!recorded <==> c.item >= |s.items| || exists a <- s.log :: a.item == c.item && a.attempt == c.attempt)
      && (!recorded ==> after == s)
  {
    hide FinishParent;
  }

  // ----------------------------------------------------- no retry once settled

  lemma {:induction false} SettledChildStays(s: Store, t: Step, item: nat)
    requires item < |s.items| && !OpenChild(s.items[item].status)
    ensures var after := Apply(s, t);
      item < |after.items| && !OpenChild(after.items[item].status) && after.items[item].attempts == s.items[item].attempts
  {
  }

  function RunFrom(s: Store, steps: seq<Step>): Store {
    if steps == [] then s else Apply(RunFrom(s, steps[..|steps| - 1]), steps[|steps| - 1])
  }

  /** A settled child, an ambiguous one included, is never handed out again. */
  lemma {:induction false} SettledChildIsNeverRetried(s: Store, steps: seq<Step>, item: nat)
    requires item < |s.items| && !OpenChild(s.items[item].status)
    ensures var after := RunFrom(s, steps);
      && item < |after.items| && !OpenChild(after.items[item].status)
      && forall lease, now, busy :: Claim(after, lease, now, busy).1.None? || Claim(after, lease, now, busy).1.value.item != item
  {
    if steps != [] {
      SettledChildIsNeverRetried(s, steps[..|steps| - 1], item);
      SettledChildStays(RunFrom(s, steps[..|steps| - 1]), steps[|steps| - 1], item);
    }
  }

  // ------------------------------------------------- handed out once more

  /** No two children share command and ordinal; each was handed out once per counted attempt, and a processing one holds a lease. */
  ghost predicate HandoutInv(s: Store) {
    && (forall i | 0 <= i < |s.items| :: s.items[i].command < |s.parents|)
    && (forall i, j | 0 <= i < j < |s.items| :: Before(s.items[i], s.items[j]))
    && (forall k: nat, a: nat :: (k, a) in s.handed <==> k < |s.items| && 1 <= a <= s.items[k].attempts)
    && (forall i | 0 <= i < |s.items| && s.items[i].status == Processing :: s.items[i].lockedAt.Some? && s.items[i].attempts > 0)
  }

  lemma {:induction false} InsertKeepsHandouts(s: Store, children: seq<NewChild>)
    requires HandoutInv(s)
    ensures HandoutInv(InsertPlan(s, children))
  {
  }

  lemma {:induction false} ClaimKeepsHandouts(s: Store, lease: int, now: int, busy: set<nat>)
    requires HandoutInv(s)
    ensures HandoutInv(Claim(s, lease, now, busy).0)
  {
    hide First;
  }

  lemma {:induction false} StepKeepsHandouts(s: Store, t: Step)
    requires HandoutInv(s)
    ensures HandoutInv(Apply(s, t))
  {
    if Enabled(s, t) {
      match t
      case Insert(children) => InsertKeepsHandouts(s, children);
      case ClaimChild(lease, now, busy) => ClaimKeepsHandouts(s, lease, now, busy);
      case Record(child, status) =>
      case FinishUnsent(item, d) =>
    }
  }

  lemma {:induction false} RunKeepsHandouts(steps: seq<Step>)
    ensures HandoutInv(Run(steps))
  {
    if steps != [] {
      RunKeepsHandouts(steps[..|steps| - 1]);
      StepKeepsHandouts(Run(steps[..|steps| - 1]), steps[|steps| - 1]);
    }
  }

  /** The lease a worker held on a child has run out by the cutoff. */
  predicate LeaseExpired(i: Item, cutoff: int) {
    i.status == Processing && i.lockedAt.Some? && i.lockedAt.value < cutoff
  }

  /** Step n of the run is a claim that found the child's lease expired and put the child back to pending. */
  ghost predicate ReapedAt(steps: seq<Step>, n: nat, k: nat) {
    n < |steps| && steps[n].ClaimChild? && k < |Run(steps[..n]).items|
    && LeaseExpired(Run(steps[..n]).items[k], steps[n].now - steps[n].lease)
  }

  /** A child that was handed out is pending only because an earlier claim of the run reaped its lease. */
  lemma {:induction false} PendingAgainWasReaped(steps: seq<Step>, k: nat)
    requires k < |Run(steps).items| && Run(steps).items[k].status == Pending && Run(steps).items[k].attempts > 0
    ensures exists n: nat :: ReapedAt(steps, n, k)
  {
    var m := |steps| - 1;
    var before := Run(steps[..m]);
    RunKeepsHandouts(steps[..m]);
    hide First, FinishParent, HandoutInv;
    if k < |before.items| && before.items[k].status == Pending && before.items[k].attempts > 0 {
      PendingAgainWasReaped(steps[..m], k);
      var n: nat :| ReapedAt(steps[..m], n, k);
      assert steps[..m][..n] == steps[..n];
      assert ReapedAt(steps, n, k);
    } else {
      PendingComesFrom(before, steps[m], k);
      assert ReapedAt(steps, m, k);
    }
  }

  lemma {:induction false} PendingComesFrom(s: Store, t: Step, k: nat)
    requires var after := Apply(s, t);
      k < |after.items| && after.items[k].status == Pending && after.items[k].attempts > 0
    requires !(k < |s.items| && s.items[k].status == Pending && s.items[k].attempts > 0)
    ensures t.ClaimChild? && k < |s.items| && LeaseExpired(s.items[k], t.now - t.lease)
  {
    hide First, FinishParent;
  }

  /** Due, with an open parent and no unsettled or failed cancel beside it. */
  predicate Eligible(items: seq<Item>, parents: seq<ParentStatus>, k: nat, now: int)
    requires k < |items|
  {
    && items[k].availableAt <= now && items[k].planItem.Some?
    && items[k].command < |parents| && parents[items[k].command].Open?
    && forall j | 0 <= j < |items| && j != k && items[j].action == Cancel && items[j].planItem == items[k].planItem ::
         items[j].status == Succeeded
  }

  /** Every other claimable child that is not locked comes after it. */
  predicate ComesFirst(items: seq<Item>, parents: seq<ParentStatus>, k: nat, now: int, busy: set<nat>)
    requires k < |items|
  {
    k !in busy && forall j | 0 <= j < |items| && j != k && j !in busy
              && items[j].status == Pending && Eligible(items, parents, j, now) ::
      items[k].command < items[j].command
      || (items[k].command == items[j].command && items[k].ordinal < items[j].ordinal)
  }

  lemma {:induction false} ClaimableIff(items: seq<Item>, parents: seq<ParentStatus>, k: nat, now: int)
    requires k < |items|
    ensures Claimable(items, parents, k, now) <==> items[k].status == Pending && Eligible(items, parents, k, now)
  {
    if items[k].status == Pending && Eligible(items, parents, k, now) {
      forall j | 0 <= j < |items| ensures !Blocks(items, k, j) {}
    } else if Claimable(items, parents, k, now) {
      forall j | 0 <= j < |items| && j != k && items[j].action == Cancel && items[j].planItem == items[k].planItem
        ensures items[j].status == Succeeded
      {
        assert !Blocks(items, k, j);
      }
    }
  }

  lemma {:induction false} FirstIff(items: seq<Item>, parents: seq<ParentStatus>, now: int, busy: set<nat>, k: nat)
    requires k < |items| && forall i, j | 0 <= i < j < |items| :: Before(items[i], items[j])
    ensures First(items, parents, now, busy, |items|) == Some(k) <==>
      Claimable(items, parents, k, now) && ComesFirst(items, parents, k, now, busy)
  {
    hide Claimable, Eligible;
    forall j | 0 <= j < |items|
      ensures Claimable(items, parents, j, now) <==> items[j].status == Pending && Eligible(items, parents, j, now)
    {
      ClaimableIff(items, parents, j, now);
    }
    var r := First(items, parents, now, busy, |items|);
    if r == Some(k) {
      forall j | 0 <= j < |items| && j != k && j !in busy && Claimable(items, parents, j, now)
        ensures Before(items[k], items[j])
      {
        FirstIsLeast(items, parents, now, busy, |items|, j);
      }
    } else if Claimable(items, parents, k, now) && ComesFirst(items, parents, k, now, busy) {
      FirstIsLeast(items, parents, now, busy, |items|, k);
    }
  }

  /**
   A child that a worker was handed is handed out again if and only if it is not settled, its lease was reaped
   by an earlier claim of the run or has expired for this one, and it is the first eligible child.
   */
  lemma {:induction false} HandedOutAgainIff(steps: seq<Step>, lease: int, now: int, busy: set<nat>, k: nat, a: nat)
    requires (k, a) in Run(steps).handed
    ensures var s := Run(steps);
      var items := Reap(s.items, now - lease);
      && k < |items|
      && (Claim(s, lease, now, busy).1 == Some(Child(k, s.items[k].attempts + 1)) <==>
            && (LeaseExpired(s.items[k], now - lease) ||
                (s.items[k].status == Pending && exists n: nat :: ReapedAt(steps, n, k)))
            && Eligible(items, s.parents, k, now)
            && ComesFirst(items, s.parents, k, now, busy))
  {
    var s := Run(steps);
    RunKeepsHandouts(steps);
    ClaimIff(s, lease, now, busy, k);
    if s.items[k].status == Pending { PendingAgainWasReaped(steps, k); }
  }

  lemma {:induction false} ClaimIff(s: Store, lease: int, now: int, busy: set<nat>, k: nat)
    requires HandoutInv(s) && k < |s.items|
    ensures var items := Reap(s.items, now - lease);
      Claim(s, lease, now, busy).1 == Some(Child(k, s.items[k].attempts + 1)) <==>
        && (LeaseExpired(s.items[k], now - lease) || s.items[k].status == Pending)
        && Eligible(items, s.parents, k, now)
        && ComesFirst(items, s.parents, k, now, busy)
  {
    var items := Reap(s.items, now - lease);
    forall i, j | 0 <= i < j < |items| ensures Before(items[i], items[j]) {
      assert Before(s.items[i], s.items[j]);
    }
    hide First, ComesFirst, Before, Blocks, Eligible, Claimable;
    FirstIff(items, s.parents, now, busy, k);
    ClaimableIff(items, s.parents, k, now);
  }

  /**
   A worker crashes after sending the placement it was handed: once the lease runs out the child is handed
   out for a second attempt, though nothing was ever recorded for the first.
   */
  lemma {:induction false} AmbiguousChildIsHandedOutAgain()
    ensures var steps := [Insert([NewChild(Some(0), Place, 0)]), ClaimChild(30, 0, {}), ClaimChild(30, 31, {})];
      && Run(steps).handed == {(0, 1), (0, 2)} && Run(steps).log == []
      && ReapedAt(steps, 2, 0)
  {
    hide Run, Apply, Claim;
    var insert, first, second := Insert([NewChild(Some(0), Place, 0)]), ClaimChild(30, 0, {}), ClaimChild(30, 31, {});
    assert [insert, first] == [insert] + [first] && [insert, first, second] == [insert, first] + [second];
    assert [insert, first, second][..2] == [insert, first];
    OnlyChildInserted();
    RunClaims([insert], 30, 0);
    ClaimsTheOnlyChild(Run([insert]), 30, 0);
    RunClaims([insert, first], 30, 31);
    ClaimsTheOnlyChild(Run([insert, first]), 30, 31);
  }

  lemma {:induction false} RunClaims(steps: seq<Step>, lease: int, now: int)
    ensures Run(steps + [ClaimChild(lease, now, {})]) == Claim(Run(steps), lease, now, {}).0
  {
    hide Claim;
    assert (steps + [ClaimChild(lease, now, {})])[..|steps|] == steps;
  }

  lemma {:induction false} OnlyChildInserted()
    ensures Run([Insert([NewChild(Some(0), Place, 0)])])
      == Store([Item(0, Some(0), 0, Place, Pending, 0, 0, None)], [Open(false)], [], {})
  {
    var steps := [Insert([NewChild(Some(0), Place, 0)])];
    assert steps[..0] == [];
    assert Run(steps) == InsertPlan(EMPTY, [NewChild(Some(0), Place, 0)]);
  }

  lemma {:induction false} ClaimsTheOnlyChild(s: Store, lease: int, now: int)
    requires |s.items| == 1 && |s.parents| == 1 && s.items[0].command == 0 && s.items[0].action == Place
    requires s.parents[0].Open? && s.items[0].availableAt <= now && s.items[0].planItem.Some?
    requires s.items[0].status == Pending || LeaseExpired(s.items[0], now - lease)
    ensures Claim(s, lease, now, {}) ==
      (s.(items := [s.items[0].(status := Processing, lockedAt := Some(now), attempts := s.items[0].attempts + 1)],
          parents := [Open(true)], handed := s.handed + {(0, s.items[0].attempts + 1)}),
       Some(Child(0, s.items[0].attempts + 1)))
  {
    var items := Reap(s.items, now - lease);
    assert items == [items[0]];
    assert s.parents[0 := Open(true)] == [Open(true)];
    assert First(items, s.parents, now, {}, 0) == None;
    assert First(items, s.parents, now, {}, 1) == Some(0);
    var leased := s.items[0].(status := Processing, lockedAt := Some(now), attempts := s.items[0].attempts + 1);
    assert items[0 := leased] == [leased];
  }

  // ---------------------------------------------------------------- the store

  class QuotePlanStore {
    var items: seq<Item>
    var parents: seq<ParentStatus>
    var log: seq<Attempt>
    var handed: set<(nat, nat)>
    const lease: int

    function State(): Store
      reads this
    {
      Store(items, parents, log, handed)
    }

    /** Reap expired leases, pick the first claimable child, lease it and its parent. */
    method ClaimNext(now: int, busy: set<nat>) returns (child: Option<Child>)
      modifies this
      ensures (State(), child) == Claim(old(State()), lease, now, busy)
    {
      items := Reap(items, now - lease);
      var best: Option<nat> := None;
      for k := 0 to |items|
        invariant best == First(items, parents, now, busy, k)
      {
        if k !in busy && Claimable(items, parents, k, now) && (best.None? || Before(items[k], items[best.value])) {
          best := Some(k);
        }
      }
      match best
      case None => child := None;
      case Some(k) =>
        var attempt := items[k].attempts + 1;
        parents := parents[items[k].command := Open(true)];
        items := items[k := items[k].(status := Processing, lockedAt := Some(now), attempts := attempt)];
        handed := handed + {(k, attempt)};
        child := Some(Child(k, attempt));
    }

    method FinishParentIfTerminal(command: nat)
      modifies this`parents
      ensures parents == FinishParent(items, old(parents), command)
    {
      var statuses := [];
      for k := 0 to |items|
        invariant statuses == StatusesOf(items[..k], command)
      {
        assert items[..k + 1][..k] == items[..k];
        if items[k].command == command { statuses := statuses + [items[k].status]; }
      }
      assert items[..|items|] == items;
      if (exists s <- statuses :: OpenChild(s)) || command >= |parents| { return; }
      parents := parents[command := Settled(Aggregate(statuses))];
    }

    method RecordDispatch(c: Child, status: ChildStatus) returns (ok: bool)
      modifies this
      ensures (State(), ok) == RecordAttempt(old(State()), c, status)
    {
      if c.item >= |items| || (exists a <- log :: a.item == c.item && a.attempt == c.attempt) { return false; }
      var i := items[c.item];
      log := log + [Attempt(c.item, c.attempt, i.action, status)];
      items := items[c.item := i.(status := status, lockedAt := None)];
      FinishParentIfTerminal(i.command);
      ok := true;
    }

    method FinishUnsentChild(item: nat, d: Decision)
      modifies this
      ensures State() == FinishWithoutSend(old(State()), item, d)
    {
      if item >= |items| || items[item].status != Processing { return; }
      var i := items[item];
      items := items[item := i.(status := DecisionStatus(d), lockedAt := None)];
      FinishParentIfTerminal(i.command);
    }
  }
}
