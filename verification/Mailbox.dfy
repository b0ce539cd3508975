/**
 One subscriber's bounded queue. Reliable items wait for space and are never evicted; a lossy item
 pushed into a full queue evicts the oldest lossy item, or is itself dropped when there is none.
 Every operation runs under the mailbox lock, so any interleaving of tasks is a sequence of them.
 A put that waits for space is a put that has not happened yet.
 */
module Mailbox {
  import opened Options

  datatype Box<T> = Box(items: seq<T>, capacity: nat, dropped: nat, closed: bool)

  datatype PutResult = Stored | Full | Closed

  datatype LossyResult = Dropped(count: nat) | WasClosed

  /** The index of the oldest lossy item, or |items|. */
  function Oldest<T>(items: seq<T>, lossy: T -> bool): (i: nat)
    ensures i <= |items| && (i < |items| ==> lossy(items[i]))
    ensures forall j | 0 <= j < i :: !lossy(items[j])
  {
    if items == [] || lossy(items[0]) then 0 else 1 + Oldest(items[1..], lossy)
  }

  function RemoveAt<T>(s: seq<T>, i: nat): seq<T>
    requires i < |s|
  {
    s[..i] + s[i + 1..]
  }

  function Put<T>(b: Box<T>, x: T): (Box<T>, PutResult) {
    if b.closed then (b, Closed)
    else if |b.items| < b.capacity then (b.(items := b.items + [x]), Stored)
    else (b, Full)
  }

  /** Whether a lossy push is kept: there is space, or a lossy item to evict. */
  predicate HasRoom<T>(b: Box<T>, lossy: T -> bool) {
    |b.items| < b.capacity || Oldest(b.items, lossy) < |b.items|
  }

  function PutLossy<T>(b: Box<T>, x: T, lossy: T -> bool): (Box<T>, LossyResult) {
    if b.closed then (b, WasClosed)
    else if |b.items| < b.capacity then (b.(items := b.items + [x]), Dropped(0))
    else if HasRoom(b, lossy) then
      (b.(items := RemoveAt(b.items, Oldest(b.items, lossy)) + [x], dropped := b.dropped + 1), Dropped(1))
    else (b.(dropped := b.dropped + 1), Dropped(1))
  }

  function Take<T>(b: Box<T>): (Box<T>, Option<T>) {
    if b.items == [] then (b, None) else (b.(items := b.items[1..]), Some(b.items[0]))
  }

  function Close<T>(b: Box<T>): Box<T> { b.(closed := true) }

  // --------------------------------------------------------------- history

  /** A mailbox with what has come in, what was accepted, and what has been taken out. */
  datatype History<T> = History(box: Box<T>, arrivals: seq<T>, accepted: seq<T>, received: seq<T>)

  /** Offer is `put` at the moment it has space, and the sync path's non-blocking push. */
  datatype Op<T> = Offer(item: T) | OfferLossy(item: T) | Receive | Shut

  function Apply<T>(h: History<T>, op: Op<T>, lossy: T -> bool): History<T> {
    match op
    case Offer(x) =>
      var (b, r) := Put(h.box, x);
      if r == Stored then h.(box := b, arrivals := h.arrivals + [x], accepted := h.accepted + [x]) else h
    case OfferLossy(x) =>
      if h.box.closed then h else
      History(PutLossy(h.box, x, lossy).0, h.arrivals + [x],
              if HasRoom(h.box, lossy) then h.accepted + [x] else h.accepted, h.received)
    case Receive =>
      var (b, r) := Take(h.box);
      if r.Some? then h.(box := b, received := h.received + [r.value]) else h
    case Shut => h.(box := Close(h.box))
  }

  function Fresh<T>(capacity: nat): History<T> { History(Box([], capacity, 0, false), [], [], []) }

  function Run<T>(h: History<T>, ops: seq<Op<T>>, lossy: T -> bool): History<T> {
    if ops == [] then h else Apply(Run(h, ops[..|ops| - 1], lossy), ops[|ops| - 1], lossy)
  }

  /** Everything that got through: taken out already, or still queued. */
  function Through<T>(h: History<T>): seq<T> { h.received + h.box.items }

  function Reliable<T>(s: seq<T>, lossy: T -> bool): seq<T> {
    if s == [] then [] else
    var x := s[|s| - 1];
    Reliable(s[..|s| - 1], lossy) + (if lossy(x) then [] else [x])
  }

  /** The elements of a occur in b in the same order. */
  predicate Subsequence<T(==)>(a: seq<T>, b: seq<T>) {
    if a == [] then true
    else if b == [] then false
    else
      || (a[|a| - 1] == b[|b| - 1] && Subsequence(a[..|a| - 1], b[..|b| - 1]))
      || Subsequence(a, b[..|b| - 1])
  }

  ghost predicate Faithful<T>(h: History<T>, lossy: T -> bool) {
    && |h.box.items| <= h.box.capacity
    && Reliable(Through(h), lossy) == Reliable(h.accepted, lossy)
    && Subsequence(Through(h), h.arrivals)
    && |h.arrivals| == |Through(h)| + h.box.dropped
  }

  // ------------------------------------------------------ sequence lemmas

  lemma {:induction false} ReliableConcat<T>(a: seq<T>, b: seq<T>, lossy: T -> bool)
    ensures Reliable(a + b, lossy) == Reliable(a, lossy) + Reliable(b, lossy)
  {
    if b == [] {
      assert a + b == a;
    } else {
      ReliableConcat(a, b[..|b| - 1], lossy);
      assert (a + b)[..|a + b| - 1] == a + b[..|b| - 1];
    }
  }

  lemma {:induction false} ReliableAppend<T>(s: seq<T>, x: T, lossy: T -> bool)
    ensures Reliable(s + [x], lossy) == Reliable(s, lossy) + (if lossy(x) then [] else [x])
  {
    assert (s + [x])[..|s|] == s;
  }

  lemma {:induction false} ReliableWithout<T>(s: seq<T>, i: nat, lossy: T -> bool)
    requires i < |s| && lossy(s[i])
    ensures Reliable(RemoveAt(s, i), lossy) == Reliable(s, lossy)
  {
    hide Reliable;
    assert s == s[..i + 1] + s[i + 1..] && s[..i + 1] == s[..i] + [s[i]];
    ReliableConcat(s[..i + 1], s[i + 1..], lossy);
    ReliableAppend(s[..i], s[i], lossy);
    ReliableConcat(s[..i], s[i + 1..], lossy);
  }

  lemma {:induction false} SubsequenceAppend<T>(a: seq<T>, b: seq<T>, x: T)
    requires Subsequence(a, b)
    ensures Subsequence(a + [x], b + [x]) && Subsequence(a, b + [x])
  {
    assert (a + [x])[..|a|] == a && (b + [x])[..|b|] == b;
  }

  lemma {:induction false} SubsequenceWithout<T>(a: seq<T>, b: seq<T>, i: nat)
    requires Subsequence(a, b) && i < |a|
    ensures Subsequence(RemoveAt(a, i), b)
    decreases |b|
  {
    var m, n := |a| - 1, |b| - 1;
    var paired := a[m] == b[n] && Subsequence(a[..m], b[..n]);
    assert b != [] && (paired || Subsequence(a, b[..n]));
    hide Subsequence;
    assert b[..n] + [b[n]] == b;
    RemoveKeepsLast(a, i);
    if paired && i == m {
      SubsequenceAppend(a[..m], b[..n], b[n]);
    } else if paired {
      SubsequenceWithout(a[..m], b[..n], i);
      SubsequenceAppend(RemoveAt(a[..m], i), b[..n], b[n]);
    } else {
      SubsequenceWithout(a, b[..n], i);
      SubsequenceAppend(RemoveAt(a, i), b[..n], b[n]);
    }
  }

  lemma {:induction false} RemoveKeepsLast<T>(a: seq<T>, i: nat)
    requires i < |a|
    ensures var m := |a| - 1;
      RemoveAt(a, i) == if i == m then a[..m] else RemoveAt(a[..m], i) + [a[m]]
  {
  }

  /** A subsequence is an order-preserving embedding, so ordering facts carry over. */
  lemma {:induction false} SubsequenceEmbeds<T>(a: seq<T>, b: seq<T>) returns (at: seq<nat>)
    requires Subsequence(a, b)
    ensures |at| == |a| && (forall i | 0 <= i < |a| :: at[i] < |b| && b[at[i]] == a[i])
    ensures forall i, j | 0 <= i < j < |a| :: at[i] < at[j]
    decreases |b|
  {
    if a == [] {
      at := [];
    } else if a[|a| - 1] == b[|b| - 1] && Subsequence(a[..|a| - 1], b[..|b| - 1]) {
      at := SubsequenceEmbeds(a[..|a| - 1], b[..|b| - 1]);
      at := at + [|b| - 1];
    } else {
      at := SubsequenceEmbeds(a, b[..|b| - 1]);
    }
  }

  // --------------------------------------------------------------- theorems

  lemma {:induction false} RemoveFromQueue<T>(front: seq<T>, items: seq<T>, i: nat)
    requires i < |items|
    ensures RemoveAt(front + items, |front| + i) == front + RemoveAt(items, i)
  {
  }

  lemma {:induction false} EvictKeepsFaithful<T>(h: History<T>, x: T, lossy: T -> bool)
    requires Faithful(h, lossy) && !h.box.closed && |h.box.items| >= h.box.capacity && HasRoom(h.box, lossy)
    ensures Faithful(Apply(h, OfferLossy(x), lossy), lossy)
  {
    hide Reliable, Subsequence, Oldest;
    var after := Apply(h, OfferLossy(x), lossy);
    var i := Oldest(h.box.items, lossy);
    var all := Through(h);
    var kept := RemoveAt(all, |h.received| + i);
    RemoveFromQueue(h.received, h.box.items, i);
    assert Through(after) == kept + [x];
    ReliableWithout(all, |h.received| + i, lossy);
    ReliableAppend(kept, x, lossy);
    ReliableAppend(h.accepted, x, lossy);
    SubsequenceWithout(all, h.arrivals, |h.received| + i);
    SubsequenceAppend(kept, h.arrivals, x);
  }

  lemma {:induction false} StepKeepsFaithful<T>(h: History<T>, op: Op<T>, lossy: T -> bool)
    requires Faithful(h, lossy)
    ensures Faithful(Apply(h, op, lossy), lossy)
  {
    var after := Apply(h, op, lossy);
    match op
    case Receive =>
      assert Through(after) == Through(h);
    case Shut =>
      assert Through(after) == Through(h);
    case Offer(x) =>
      if after != h {
        assert Through(after) == Through(h) + [x];
        ReliableAppend(Through(h), x, lossy);
        ReliableAppend(h.accepted, x, lossy);
        SubsequenceAppend(Through(h), h.arrivals, x);
      }
    case OfferLossy(x) =>
      if !h.box.closed {
        if |h.box.items| < h.box.capacity {
          assert Through(after) == Through(h) + [x];
          ReliableAppend(Through(h), x, lossy);
          ReliableAppend(h.accepted, x, lossy);
          SubsequenceAppend(Through(h), h.arrivals, x);
        } else if HasRoom(h.box, lossy) {
          EvictKeepsFaithful(h, x, lossy);
        } else {
          assert Through(after) == Through(h);
          SubsequenceAppend(Through(h), h.arrivals, x);
        }
      }
  }

  /**
   Over every interleaving of operations: the queue is bounded, no accepted reliable item is lost or
   reordered, what gets through is a subsequence of what arrived, and every arrival is accounted for.
   */
  lemma {:induction false} RunIsFaithful<T>(capacity: nat, ops: seq<Op<T>>, lossy: T -> bool)
    ensures Faithful(Run(Fresh(capacity), ops, lossy), lossy)
  {
    if ops != [] {
      RunIsFaithful(capacity, ops[..|ops| - 1], lossy);
      StepKeepsFaithful(Run(Fresh(capacity), ops[..|ops| - 1], lossy), ops[|ops| - 1], lossy);
    }
  }

  /** Only items classified lossy go through the lossy path, as both publish paths ensure. */
  ghost predicate Classified<T>(ops: seq<Op<T>>, lossy: T -> bool) {
    forall op <- ops :: op.OfferLossy? ==> lossy(op.item)
  }

  /** Then not one reliable arrival is lost: they come out exactly as they came in. */
  lemma {:induction false} NoReliableArrivalIsLost<T>(capacity: nat, ops: seq<Op<T>>, lossy: T -> bool)
    requires Classified(ops, lossy)
    ensures var h := Run(Fresh(capacity), ops, lossy);
      Reliable(Through(h), lossy) == Reliable(h.arrivals, lossy)
  {
    RunIsFaithful(capacity, ops, lossy);
    AcceptedIsArrived(capacity, ops, lossy);
  }

  lemma {:induction false} AcceptedIsArrived<T>(capacity: nat, ops: seq<Op<T>>, lossy: T -> bool)
    requires Classified(ops, lossy)
    ensures var h := Run(Fresh(capacity), ops, lossy);
      Reliable(h.accepted, lossy) == Reliable(h.arrivals, lossy)
  {
    if ops != [] {
      AcceptedIsArrived(capacity, ops[..|ops| - 1], lossy);
      StepAcceptsReliable(Run(Fresh(capacity), ops[..|ops| - 1], lossy), ops[|ops| - 1], lossy);
    }
  }

  lemma {:induction false} StepAcceptsReliable<T>(h: History<T>, op: Op<T>, lossy: T -> bool)
    requires op.OfferLossy? ==> lossy(op.item)
    requires Reliable(h.accepted, lossy) == Reliable(h.arrivals, lossy)
    ensures Reliable(Apply(h, op, lossy).accepted, lossy) == Reliable(Apply(h, op, lossy).arrivals, lossy)
  {
    hide Reliable;
    if op.Offer? || op.OfferLossy? {
      ReliableAppend(h.accepted, op.item, lossy);
      ReliableAppend(h.arrivals, op.item, lossy);
    }
  }

  /** In a mailbox fed only lossy items, the queue is always the latest arrivals, without a gap. */
  ghost predicate HoldsLatest<T>(h: History<T>) { Suffix(h.box.items, h.arrivals) }

  ghost predicate Suffix<T>(items: seq<T>, arrivals: seq<T>) {
    |items| <= |arrivals| && items == arrivals[|arrivals| - |items|..]
  }

  lemma {:induction false} LossyBoxHoldsLatest<T>(capacity: nat, ops: seq<Op<T>>, lossy: T -> bool)
    requires capacity > 0
    requires forall op <- ops :: (op.Offer? || op.OfferLossy? ==> lossy(op.item))
    ensures var h := Run(Fresh(capacity), ops, lossy);
      && h.box.capacity == capacity
      && (forall x <- h.box.items :: lossy(x))
      && HoldsLatest(h)
  {
    if ops != [] {
      LossyBoxHoldsLatest(capacity, ops[..|ops| - 1], lossy);
      RunIsFaithful(capacity, ops[..|ops| - 1], lossy);
      StepHoldsLatest(Run(Fresh(capacity), ops[..|ops| - 1], lossy), ops[|ops| - 1], lossy);
      StepKeepsLossy(Run(Fresh(capacity), ops[..|ops| - 1], lossy), ops[|ops| - 1], lossy);
    }
  }

  lemma {:induction false} StepHoldsLatest<T>(h: History<T>, op: Op<T>, lossy: T -> bool)
    requires |h.box.items| <= h.box.capacity && h.box.capacity > 0 && HoldsLatest(h)
    requires forall x <- h.box.items :: lossy(x)
    ensures Apply(h, op, lossy).box.capacity == h.box.capacity && HoldsLatest(Apply(h, op, lossy))
  {
    hide Oldest, Suffix;
    OldestIsFirst(h.box.items, lossy);
    if op.Offer? || op.OfferLossy? { SuffixGrows(h.arrivals, h.box.items, op.item); }
    if h.box.items != [] { SuffixShrinks(h.arrivals, h.box.items); }
  }

  lemma {:induction false} StepKeepsLossy<T>(h: History<T>, op: Op<T>, lossy: T -> bool)
    requires forall x <- h.box.items :: lossy(x)
    requires op.Offer? || op.OfferLossy? ==> lossy(op.item)
    ensures forall x <- Apply(h, op, lossy).box.items :: lossy(x)
  {
    hide Oldest;
    OldestIsFirst(h.box.items, lossy);
  }

  /** In a lossy queue the oldest item is the one that gives way. */
  lemma {:induction false} OldestIsFirst<T>(items: seq<T>, lossy: T -> bool)
    requires forall x <- items :: lossy(x)
    ensures items != [] ==> Oldest(items, lossy) == 0
  {
    if items != [] { assert lossy(items[0]); }
  }

  /** A suffix of the arrivals stays one when an item is added to both, with or without its first item. */
  lemma {:induction false} SuffixGrows<T>(arrivals: seq<T>, items: seq<T>, x: T)
    requires Suffix(items, arrivals)
    ensures Suffix(items + [x], arrivals + [x])
    ensures items != [] ==> Suffix(RemoveAt(items, 0) + [x], arrivals + [x])
  {
  }

  lemma {:induction false} SuffixShrinks<T>(arrivals: seq<T>, items: seq<T>)
    requires Suffix(items, arrivals) && items != []
    ensures Suffix(items[1..], arrivals)
  {
  }

  // ------------------------------------------------------------ the mailbox

  class BoundedMailbox<T> {
    var items: seq<T>
    const capacity: nat
    var dropped: nat
    var closed: bool
    const lossy: T -> bool

    function State(): Box<T>
      reads this
    {
      Box(items, capacity, dropped, closed)
    }

    constructor (capacity: nat, lossy: T -> bool)
      ensures State() == Box([], capacity, 0, false) && this.lossy == lossy
    {
      this.capacity, this.lossy := capacity, lossy;
      items, dropped, closed := [], 0, false;
    }

    /** One pass of `put`: with Full the caller waits and tries again. */
    method TryPut(x: T) returns (r: PutResult)
      modifies this
      ensures (State(), r) == Put(old(State()), x)
    {
      if closed { return Closed; }
      if |items| < capacity {
        items := items + [x];
        return Stored;
      }
      r := Full;
    }

    method TryPutLossy(x: T) returns (r: LossyResult)
      modifies this
      ensures (State(), r) == PutLossy(old(State()), x, lossy)
    {
      if closed { return WasClosed; }
      var count := 0;
      if |items| >= capacity {
        var i := 0;
        while i < |items| && !lossy(items[i])
          invariant 0 <= i <= |items|
          invariant Oldest(items, lossy) == i + Oldest(items[i..], lossy)
        {
          assert items[i..][1..] == items[i + 1..];
          i := i + 1;
        }
        dropped := dropped + 1;
        if i == |items| { return Dropped(1); }
        items := items[..i] + items[i + 1..];
        count := 1;
      }
      items := items + [x];
      r := Dropped(count);
    }

    /** One pass of `recv` and of `try_recv`; an empty open mailbox makes `recv` wait. */
    method TryReceive() returns (r: Option<T>)
      modifies this
      ensures (State(), r) == Take(old(State()))
    {
      if items == [] { return None; }
      r := Some(items[0]);
      items := items[1..];
    }

    /** The sync path's push: refuses instead of waiting. */
    method TryReceiveForced(x: T) returns (stored: bool)
      modifies this
      ensures State() == Put(old(State()), x).0 && stored == (Put(old(State()), x).1 == Stored)
    {
      if closed || |items| >= capacity { return false; }
      items := items + [x];
      stored := true;
    }

    method Shutdown()
      modifies this
      ensures State() == Close(old(State()))
    {
      closed := true;
    }
  }
}
