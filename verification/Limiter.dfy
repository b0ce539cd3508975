/**
 The keyed sliding-window limiter: it forgets hits that left the window and evicts idle keys, yet
 decides like a plain log of every allowed hit, as long as calls take the lock in clock order. Out of that
 order the difference is exactly the hits it lost, or could not drop, inside or outside the window.
 Times are whole nanoseconds.
 */
module Limiter {
  import opened Arith

  const SECOND: int := 1_000_000_000
  const SPAN: int := 60 * SECOND
  const KEY_TTL: int := 120 * SECOND
  const SWEEP_THRESHOLD: nat := 1024

  datatype Window = Window(times: seq<int>, lastSeen: int)

  datatype Call = Call(key: string, now: int, limit: nat)

  // ------------------------------------------------------------- the limiter

  function PopOld(times: seq<int>, cutoff: int): seq<int> {
    if times != [] && times[0] < cutoff then PopOld(times[1..], cutoff) else times
  }

  /** Elapsed time saturates at zero, like the clock type's subtraction. */
  predicate Idle(w: Window, now: int) { Max(now - w.lastSeen, 0) >= KEY_TTL }

  function Prune(windows: map<string, Window>, now: int): map<string, Window> {
    if |windows| < SWEEP_THRESHOLD then windows
    else map k | k in windows && !Idle(windows[k], now) :: windows[k]
  }

  /** The sweep runs from 1024 keys on, and drops exactly the keys not seen for two minutes. */
  lemma {:induction false} PruneIs(windows: map<string, Window>, now: int, key: string)
    ensures var after := Prune(windows, now);
      && (key in after <==>
            key in windows && (|windows| < 1024 || now < windows[key].lastSeen + 120_000_000_000))
      && (key in after ==> after[key] == windows[key])
  {
  }

  function TimesOf(windows: map<string, Window>, key: string): seq<int> {
    if key in windows then windows[key].times else []
  }

  function Allow(windows: map<string, Window>, c: Call): (map<string, Window>, bool) {
    var pruned := Prune(windows, c.now);
    var times := PopOld(TimesOf(pruned, c.key), c.now - SPAN);
    if |times| >= c.limit then (pruned[c.key := Window(times, c.now)], false)
    else (pruned[c.key := Window(times + [c.now], c.now)], true)
  }

  function Run(calls: seq<Call>): (map<string, Window>, seq<bool>) {
    if calls == [] then (map[], []) else
    var (windows, decisions) := Run(calls[..|calls| - 1]);
    var (after, allowed) := Allow(windows, calls[|calls| - 1]);
    (after, decisions + [allowed])
  }

  // ------------------------------------------------------------ the plain log

  datatype Hit = Hit(key: string, at: int)

  /** How many logged hits of the key are no older than the cutoff. */
  function Recent(log: seq<Hit>, key: string, cutoff: int): nat {
    if log == [] then 0 else
    var h := log[|log| - 1];
    Recent(log[..|log| - 1], key, cutoff) + (if h.key == key && h.at >= cutoff then 1 else 0)
  }

  predicate PlainAllows(log: seq<Hit>, c: Call) { Recent(log, c.key, c.now - SPAN) < c.limit }

  /** Fewer than `limit` allowed hits of this key in the last sixty seconds. */
  function PlainRun(calls: seq<Call>): (seq<Hit>, seq<bool>) {
    if calls == [] then ([], []) else
    var (log, decisions) := PlainRun(calls[..|calls| - 1]);
    var c := calls[|calls| - 1];
    if PlainAllows(log, c) then (log + [Hit(c.key, c.now)], decisions + [true])
    else (log, decisions + [false])
  }

  // -------------------------------------------------------------- refinement

  ghost predicate InClockOrder(calls: seq<Call>) {
    forall i, j | 0 <= i < j < |calls| :: calls[i].now <= calls[j].now
  }

  /** The logged times of one key. */
  ghost function HitsOf(log: seq<Hit>, key: string): seq<int> {
    if log == [] then [] else
    var h := log[|log| - 1];
    HitsOf(log[..|log| - 1], key) + (if h.key == key then [h.at] else [])
  }

  ghost predicate Sorted(times: seq<int>) { forall i, j | 0 <= i < j < |times| :: times[i] <= times[j] }

  /** What the limiter remembers of a key is the log minus hits that had left the window. */
  ghost predicate Remembers(times: seq<int>, hits: seq<int>, now: int) {
    && |times| <= |hits|
    && times == hits[|hits| - |times|..]
    && forall i | 0 <= i < |hits| - |times| :: hits[i] < now - SPAN
  }

  ghost predicate Bounded(times: seq<int>, at: int) { forall i | 0 <= i < |times| :: times[i] <= at }

  ghost predicate KeyRefines(windows: map<string, Window>, key: string, hits: seq<int>, now: int) {
    && Sorted(hits) && Bounded(hits, now)
    && Remembers(TimesOf(windows, key), hits, now)
    && (key in windows ==> Bounded(hits, windows[key].lastSeen))
  }

  lemma {:induction false} HitsAppend(log: seq<Hit>, h: Hit, key: string)
    ensures HitsOf(log + [h], key) == HitsOf(log, key) + (if h.key == key then [h.at] else [])
  {
    assert (log + [h])[..|log|] == log;
  }

  lemma {:induction false} PopOldIsSuffix(times: seq<int>, cutoff: int)
    requires Sorted(times)
    ensures var r := PopOld(times, cutoff);
      && |r| <= |times| && r == times[|times| - |r|..]
      && (forall i | 0 <= i < |times| - |r| :: times[i] < cutoff)
      && (forall i | 0 <= i < |r| :: r[i] >= cutoff)
  {
    if times != [] && times[0] < cutoff {
      assert Sorted(times[1..]);
      PopOldIsSuffix(times[1..], cutoff);
    }
  }

  /** Popping what remembered hits have expired leaves exactly the recent ones. */
  lemma {:induction false} PopCountsRecent(hits: seq<int>, times: seq<int>, last: int, now: int)
    requires last <= now && Sorted(hits) && Remembers(times, hits, last)
    ensures var r := PopOld(times, now - SPAN);
      |r| == TimesFrom(hits, now - SPAN) && Remembers(r, hits, now)
  {
    hide PopOld, TimesFrom;
    var r := PopOld(times, now - SPAN);
    PopOldIsSuffix(times, now - SPAN);
    var n := |hits| - |r|;
    forall i | 0 <= i < n ensures hits[i] < now - SPAN {
      if i >= |hits| - |times| { assert hits[i] == times[i - (|hits| - |times|)]; }
    }
    assert hits == hits[..n] + hits[n..];
    TimesFromConcat(hits[..n], hits[n..], now - SPAN);
    TimesFromNone(hits[..n], now - SPAN);
    TimesFromAll(hits[n..], now - SPAN);
  }

  lemma {:induction false} TimesFromNone(times: seq<int>, cutoff: int)
    requires forall i | 0 <= i < |times| :: times[i] < cutoff
    ensures TimesFrom(times, cutoff) == 0
  {
    if times != [] { TimesFromNone(times[..|times| - 1], cutoff); }
  }

  /** Evicted keys only had hits that left the window long ago. */
  lemma {:induction false} PruneKey(windows: map<string, Window>, key: string, hits: seq<int>, last: int, now: int)
    requires last <= now && KeyRefines(windows, key, hits, last)
    ensures KeyRefines(Prune(windows, now), key, hits, now)
  {
    var pruned := Prune(windows, now);
    assert key in pruned ==> key in windows && pruned[key] == windows[key];
    assert key in windows && key !in pruned ==> Idle(windows[key], now);
  }

  lemma {:induction false} RememberOneMore(times: seq<int>, hits: seq<int>, now: int)
    requires Remembers(times, hits, now) && Sorted(hits) && Bounded(hits, now)
    ensures Remembers(times + [now], hits + [now], now) && Sorted(hits + [now]) && Bounded(hits + [now], now)
  {
  }

  /** One call keeps what is remembered of each key right, and decides by the recent hits of its own. */
  lemma {:induction false} AllowKey(
    windows: map<string, Window>, hits: seq<int>, last: int, c: Call, key: string)
    requires last <= c.now && KeyRefines(windows, key, hits, last)
    ensures var (after, allowed) := Allow(windows, c);
      && (key == c.key ==> allowed == (TimesFrom(hits, c.now - SPAN) < c.limit))
      && KeyRefines(after, key, hits + (if key == c.key && allowed then [c.now] else []), c.now)
  {
    hide Prune, PopOld, TimesFrom, Remembers, Sorted, Bounded;
    var pruned := Prune(windows, c.now);
    PruneKey(windows, key, hits, last, c.now);
    assert hits + [] == hits;
    if key == c.key {
      PopCountsRecent(hits, TimesOf(pruned, key), c.now, c.now);
      RememberOneMore(PopOld(TimesOf(pruned, key), c.now - SPAN), hits, c.now);
    }
  }

  lemma {:induction false} RunRefines(calls: seq<Call>, key: string)
    requires InClockOrder(calls)
    ensures Run(calls).1 == PlainRun(calls).1
    ensures var now := if calls == [] then 0 else calls[|calls| - 1].now;
      KeyRefines(Run(calls).0, key, HitsOf(PlainRun(calls).0, key), now)
  {
    hide KeyRefines, Allow, Recent, TimesFrom, HitsOf;
    if calls == [] {
      NothingRefines(key);
    } else {
      var front, c := calls[..|calls| - 1], calls[|calls| - 1];
      RunRefines(front, key);
      RunRefines(front, c.key);
      var log := PlainRun(front).0;
      if front == [] { NothingRefinesAt(key, c.now); NothingRefinesAt(c.key, c.now); }
      var last := if front == [] then c.now else front[|front| - 1].now;
      RecentCountsHits(log, c.key, c.now - SPAN);
      AllowKey(Run(front).0, HitsOf(log, key), last, c, key);
      AllowKey(Run(front).0, HitsOf(log, c.key), last, c, c.key);
      HitsAppend(log, Hit(c.key, c.now), key);
      assert HitsOf(log, key) + [] == HitsOf(log, key);
    }
  }

  lemma {:induction false} NothingRefines(key: string)
    ensures KeyRefines(map[], key, HitsOf([], key), 0)
  {
  }

  lemma {:induction false} NothingRefinesAt(key: string, now: int)
    ensures KeyRefines(Run([]).0, key, HitsOf(PlainRun([]).0, key), now)
  {
  }

  /** Pruning and eviction never change a decision: each equals the plain log rule. */
  lemma {:induction false} DecisionsArePlain(calls: seq<Call>)
    requires InClockOrder(calls)
    ensures Run(calls).1 == PlainRun(calls).1
  {
    RunRefines(calls, "");
  }

  // ------------------------------------------------------- out of clock order

  /** The hits the limiter itself allowed, in the order the calls took the lock. */
  function AllowedHits(calls: seq<Call>): seq<Hit> {
    if calls == [] then [] else
    var front, c := calls[..|calls| - 1], calls[|calls| - 1];
    AllowedHits(front) + (if Allow(Run(front).0, c).1 then [Hit(c.key, c.now)] else [])
  }

  function TimesFrom(times: seq<int>, cutoff: int): nat {
    if times == [] then 0 else
    TimesFrom(times[..|times| - 1], cutoff) + (if times[|times| - 1] >= cutoff then 1 else 0)
  }

  /** The limiter remembers the last allowed hits of a key, whatever the clocks were. */
  ghost predicate IsSuffix(times: seq<int>, hits: seq<int>) {
    |times| <= |hits| && times == hits[|hits| - |times|..]
  }

  /** What is left of a key's remembered hits when a call has evicted and popped. */
  ghost function Left(front: seq<Call>, c: Call, key: string): seq<int> {
    var kept := TimesOf(Prune(Run(front).0, c.now), key);
    if key == c.key then PopOld(kept, c.now - SPAN) else kept
  }

  /** How many of a key's allowed hits the limiter no longer remembers. */
  ghost function Forgotten(calls: seq<Call>, key: string): int {
    |HitsOf(AllowedHits(calls), key)| - |TimesOf(Run(calls).0, key)|
  }

  /** Hits that were forgotten although they are in the window of a call. */
  ghost function Lost(calls: seq<Call>, c: Call): int {
    var hits, n := HitsOf(AllowedHits(calls), c.key), Forgotten(calls + [c], c.key);
    if 0 <= n <= |hits| then TimesFrom(hits[..n], c.now - SPAN) else 0
  }

  /** Hits that left the window of a call but sit behind one that did not, and so are still counted. */
  ghost function Stuck(calls: seq<Call>, c: Call): int {
    var hits, n := HitsOf(AllowedHits(calls), c.key), Forgotten(calls + [c], c.key);
    if 0 <= n <= |hits| then |hits| - n - TimesFrom(hits[n..], c.now - SPAN) else 0
  }

  lemma {:induction false} RunAppend(calls: seq<Call>, c: Call)
    ensures Run(calls + [c]) == (Allow(Run(calls).0, c).0, Run(calls).1 + [Allow(Run(calls).0, c).1])
    ensures AllowedHits(calls + [c]) ==
            AllowedHits(calls) + (if Allow(Run(calls).0, c).1 then [Hit(c.key, c.now)] else [])
    ensures PlainRun(calls + [c]) ==
            if PlainAllows(PlainRun(calls).0, c) then (PlainRun(calls).0 + [Hit(c.key, c.now)], PlainRun(calls).1 + [true])
            else (PlainRun(calls).0, PlainRun(calls).1 + [false])
  {
    assert (calls + [c])[..|calls|] == calls;
  }

  lemma {:induction false} PopOldPops(times: seq<int>, cutoff: int)
    ensures var r := PopOld(times, cutoff);
      && IsSuffix(r, times)
      && (r != [] ==> r[0] >= cutoff)
      && forall i | 0 <= i < |times| - |r| :: times[i] < cutoff
  {
    if times != [] && times[0] < cutoff {
      var rest := times[1..];
      PopOldPops(rest, cutoff);
      var r := PopOld(rest, cutoff);
      assert PopOld(times, cutoff) == r;
      SuffixOfTail(r, times);
      forall i | 0 <= i < |times| - |r| ensures times[i] < cutoff {
        if i > 0 { assert rest[i - 1] == times[i]; }
      }
    }
  }

  lemma {:induction false} SuffixOfTail(r: seq<int>, times: seq<int>)
    requires times != [] && IsSuffix(r, times[1..])
    ensures IsSuffix(r, times)
  {
  }

  lemma {:induction false} SuffixOfSuffix(a: seq<int>, b: seq<int>, hits: seq<int>)
    requires IsSuffix(a, b) && IsSuffix(b, hits)
    ensures IsSuffix(a, hits)
  {
  }

  /** One call: the key's hits lose a prefix, other keys keep theirs or are evicted. */
  lemma {:induction false} AllowForgets(windows: map<string, Window>, c: Call, key: string)
    ensures var (after, allowed) := Allow(windows, c);
      var times, kept := TimesOf(windows, key), TimesOf(Prune(windows, c.now), key);
      && (kept == times || (kept == [] && key in windows && Idle(windows[key], c.now)))
      && (key == c.key ==> (allowed <==> |PopOld(kept, c.now - SPAN)| < c.limit))
      && TimesOf(after, key) ==
           if key != c.key then kept
           else PopOld(kept, c.now - SPAN) + (if allowed then [c.now] else [])
  {
    hide PopOld;
  }

  lemma {:induction false} HitsAfter(front: seq<Call>, c: Call, key: string)
    ensures HitsOf(AllowedHits(front + [c]), key) ==
      HitsOf(AllowedHits(front), key) + (if key == c.key && Allow(Run(front).0, c).1 then [c.now] else [])
  {
    hide Run, PlainRun, AllowedHits, HitsOf, Allow, PlainAllows;
    RunAppend(front, c);
    var log := AllowedHits(front);
    HitsAppend(log, Hit(c.key, c.now), key);
    assert log + [] == log && HitsOf(log, key) + [] == HitsOf(log, key);
  }

  /** What one more call does to the allowed hits of a key and to what is remembered of them. */
  lemma {:induction false} OneCall(front: seq<Call>, c: Call, key: string)
    ensures var times, hits, left := TimesOf(Run(front).0, key), HitsOf(AllowedHits(front), key), Left(front, c, key);
      var more := if key == c.key && Allow(Run(front).0, c).1 then [c.now] else [];
      && HitsOf(AllowedHits(front + [c]), key) == hits + more
      && TimesOf(Run(front + [c]).0, key) == left + more
      && IsSuffix(left, times)
      && (key == c.key ==> (Allow(Run(front).0, c).1 <==> |left| < c.limit))
      && (key == c.key && left != [] ==> left[0] >= c.now - SPAN)
  {
    hide Run, AllowedHits, HitsOf, PopOld, Allow, Prune, TimesOf, Idle;
    HitsAfter(front, c, key);
    RunAppend(front, c);
    AllowForgets(Run(front).0, c, key);
    assert Left(front, c, key) + [] == Left(front, c, key);
    PopOldPops(TimesOf(Prune(Run(front).0, c.now), key), c.now - SPAN);
  }

  /** A hit remembered before a call and not after it was popped or evicted by that call. */
  lemma {:induction false} OneCallForgets(front: seq<Call>, c: Call, key: string, j: nat)
    requires var times, left := TimesOf(Run(front).0, key), Left(front, c, key);
      |left| <= |times| && j < |times| - |left|
    ensures TimesOf(Run(front).0, key)[j] < c.now - SPAN
      || (key in Run(front).0 && Idle(Run(front).0[key], c.now))
  {
    hide Run, PopOld;
    var windows := Run(front).0;
    AllowForgets(windows, c, key);
    PopOldPops(TimesOf(Prune(windows, c.now), key), c.now - SPAN);
  }

  lemma {:induction false} NothingRun()
    ensures Run([]) == (map[], []) && PlainRun([]) == ([], []) && AllowedHits([]) == []
    ensures forall key :: HitsOf([], key) == [] && TimesOf(map[], key) == []
  {
  }

  lemma {:induction false} RemembersSuffix(calls: seq<Call>, key: string)
    ensures IsSuffix(TimesOf(Run(calls).0, key), HitsOf(AllowedHits(calls), key))
  {
    hide Run, AllowedHits, HitsOf, Left, Allow, TimesOf;
    NothingRun();
    if calls != [] {
      var front, c := calls[..|calls| - 1], calls[|calls| - 1];
      assert calls == front + [c];
      RemembersSuffix(front, key);
      OneCall(front, c, key);
      KeepsSuffix(Left(front, c, key), TimesOf(Run(front).0, key), HitsOf(AllowedHits(front), key), [c.now]);
    }
  }

  lemma {:induction false} KeepsSuffix(a: seq<int>, b: seq<int>, hits: seq<int>, more: seq<int>)
    requires IsSuffix(a, b) && IsSuffix(b, hits)
    ensures IsSuffix(a + more, hits + more) && IsSuffix(a + [], hits + [])
  {
  }

  /** The forgotten hits and those left make up the allowed hits of the key. */
  lemma {:induction false} ForgottenSplits(calls: seq<Call>, c: Call)
    ensures var hits, n := HitsOf(AllowedHits(calls), c.key), Forgotten(calls + [c], c.key);
      && 0 <= n <= |hits| && hits[n..] == Left(calls, c, c.key)
  {
    hide Run, AllowedHits, HitsOf, Left, Allow;
    RemembersSuffix(calls, c.key);
    OneCall(calls, c, c.key);
    SuffixOfSuffix(Left(calls, c, c.key), TimesOf(Run(calls).0, c.key), HitsOf(AllowedHits(calls), c.key));
  }


  lemma {:induction false} TimesFromConcat(a: seq<int>, b: seq<int>, cutoff: int)
    ensures TimesFrom(a + b, cutoff) == TimesFrom(a, cutoff) + TimesFrom(b, cutoff)
    ensures TimesFrom(b, cutoff) <= |b|
  {
    if b == [] {
      assert a + b == a;
    } else {
      assert (a + b)[..|a + b| - 1] == a + b[..|b| - 1];
      TimesFromConcat(a, b[..|b| - 1], cutoff);
    }
  }

  lemma {:induction false} RecentCountsHits(log: seq<Hit>, key: string, cutoff: int)
    ensures Recent(log, key, cutoff) == TimesFrom(HitsOf(log, key), cutoff)
  {
    if log != [] {
      var front, h := log[..|log| - 1], log[|log| - 1];
      RecentCountsHits(front, key, cutoff);
      TimesFromConcat(HitsOf(front, key), if h.key == key then [h.at] else [], cutoff);
      assert [h.at][..0] == [];
    }
  }

  /**
   Whatever the clocks, a call is allowed exactly when the plain count of the hits allowed so far, without
   the lost ones and with the stuck ones, is below its limit.
   */
  lemma {:induction false} EveryDecisionIs(calls: seq<Call>, c: Call)
    ensures 0 <= Forgotten(calls + [c], c.key) <= |HitsOf(AllowedHits(calls), c.key)|
    ensures Lost(calls, c) >= 0 && Stuck(calls, c) >= 0
    ensures Run(calls + [c]).1 == Run(calls).1 +
      [Recent(AllowedHits(calls), c.key, c.now - SPAN) - Lost(calls, c) + Stuck(calls, c) < c.limit]
  {
    hide Run, AllowedHits, HitsOf, Left, Allow, Recent, TimesFrom, Forgotten;
    var hits, n := HitsOf(AllowedHits(calls), c.key), Forgotten(calls + [c], c.key);
    ForgottenSplits(calls, c);
    OneCall(calls, c, c.key);
    RunAppend(calls, c);
    RecentCountsHits(AllowedHits(calls), c.key, c.now - SPAN);
    assert hits == hits[..n] + hits[n..];
    TimesFromConcat(hits[..n], hits[n..], c.now - SPAN);
  }

  lemma {:induction false} SameDecisionsSameHits(calls: seq<Call>)
    requires Run(calls).1 == PlainRun(calls).1
    ensures AllowedHits(calls) == PlainRun(calls).0
  {
    if calls != [] {
      var front, c := calls[..|calls| - 1], calls[|calls| - 1];
      assert calls == front + [c];
      RunAppend(front, c);
      hide Run, PlainRun, AllowedHits, Allow, Recent;
      var a, b := Allow(Run(front).0, c).1, PlainAllows(PlainRun(front).0, c);
      SameFront(Run(front).1, PlainRun(front).1, a, b);
      SameDecisionsSameHits(front);
    }
  }

  lemma {:induction false} SameFront<T>(a: seq<T>, b: seq<T>, x: T, y: T)
    ensures a + [x] == b + [y] <==> a == b && x == y
  {
    if a + [x] == b + [y] {
      assert a == (a + [x])[..|a|] && b == (b + [y])[..|b|];
      assert x == (a + [x])[|a|] && y == (b + [y])[|b|];
    }
  }

  /**
   The first decision that differs from the plain log rule: it does so exactly when lost hits bring the
   count below the limit while the plain count is not, or stuck hits do the reverse.
   */
  lemma {:induction false} DecidedDifferentlyIff(calls: seq<Call>, c: Call)
    requires Run(calls).1 == PlainRun(calls).1
    ensures var plain := Recent(PlainRun(calls).0, c.key, c.now - SPAN);
      var remembered := plain - Lost(calls, c) + Stuck(calls, c);
      Run(calls + [c]).1 != PlainRun(calls + [c]).1 <==> remembered < c.limit <= plain || plain < c.limit <= remembered
  {
    hide Run, PlainRun, AllowedHits, Recent, Lost, Stuck, Allow;
    SameDecisionsSameHits(calls);
    EveryDecisionIs(calls, c);
    PlainAppend(calls, c);
    var plain := Recent(PlainRun(calls).0, c.key, c.now - SPAN);
    var remembered := plain - Lost(calls, c) + Stuck(calls, c);
    SameFront(Run(calls).1, PlainRun(calls).1, remembered < c.limit, plain < c.limit);
  }

  lemma {:induction false} PlainAppend(calls: seq<Call>, c: Call)
    ensures PlainRun(calls + [c]).1 == PlainRun(calls).1 + [PlainAllows(PlainRun(calls).0, c)]
  {
    hide Recent;
    assert (calls + [c])[..|calls|] == calls;
  }

  /** A call that came after the hit and whose clock is past the hit's window. */
  ghost predicate PassedBy(calls: seq<Call>, key: string, i: nat, at: int, m: nat) {
    m < |calls| && i < |HitsOf(AllowedHits(calls[..m]), key)| && calls[m].now - SPAN > at
  }

  /** A call of the key that came after the hit and whose clock is a whole window before it. */
  ghost predicate PutBack(calls: seq<Call>, key: string, i: nat, at: int, m: nat) {
    m < |calls| && i < |HitsOf(AllowedHits(calls[..m + 1]), key)| && calls[m].key == key && calls[m].now + SPAN <= at
  }

  ghost predicate ForgottenFairly(calls: seq<Call>, key: string, i: nat, at: int) {
    (exists m: nat :: PassedBy(calls, key, i, at, m)) || (exists m: nat :: PutBack(calls, key, i, at, m))
  }

  lemma {:induction false} StillFairly(calls: seq<Call>, c: Call, key: string, i: nat, at: int)
    requires ForgottenFairly(calls, key, i, at)
    ensures ForgottenFairly(calls + [c], key, i, at)
  {
    if m: nat :| PassedBy(calls, key, i, at, m) {
      assert (calls + [c])[..m] == calls[..m];
      assert PassedBy(calls + [c], key, i, at, m);
    } else {
      var m: nat :| PutBack(calls, key, i, at, m);
      assert (calls + [c])[..m + 1] == calls[..m + 1];
      assert PutBack(calls + [c], key, i, at, m);
    }
  }

  /** A window was last seen by the latest call of its key. */
  ghost predicate LastSeenBy(calls: seq<Call>, key: string, m: nat) {
    && m < |calls| && calls[m].key == key && key in Run(calls).0 && calls[m].now == Run(calls).0[key].lastSeen
    && HitsOf(AllowedHits(calls), key) == HitsOf(AllowedHits(calls[..m + 1]), key)
  }

  lemma {:induction false} SomeCallSawLast(calls: seq<Call>, key: string)
    requires key in Run(calls).0
    ensures exists m: nat :: LastSeenBy(calls, key, m)
  {
    hide HitsOf, AllowedHits, Run, Allow, Left, IsSuffix, TimesOf;
    NothingRun();
    var front, c := calls[..|calls| - 1], calls[|calls| - 1];
    assert calls == front + [c];
    RunAppend(front, c);
    OneCall(front, c, key);
    WindowAfter(Run(front).0, c, key);
    if key == c.key {
      assert calls[..|front| + 1] == calls;
      assert LastSeenBy(calls, key, |front|);
    } else {
      SomeCallSawLast(front, key);
      var m: nat :| LastSeenBy(front, key, m);
      assert calls[..m + 1] == front[..m + 1];
      assert LastSeenBy(calls, key, m);
    }
  }

  lemma {:induction false} WindowAfter(windows: map<string, Window>, c: Call, key: string)
    ensures var after := Allow(windows, c).0;
      && (key == c.key ==> key in after && after[key].lastSeen == c.now)
      && (key != c.key && key in after ==> key in windows && after[key] == windows[key])
  {
    hide PopOld;
  }

  /**
   The limiter forgets a hit only after a later call more than a window past it, or after a call of the
   same key, taken later, whose clock is a window before it; the second never happens to calls in clock order.
   */
  lemma {:induction false} ForgottenOnlyFairly(calls: seq<Call>, key: string, i: nat)
    requires i < Forgotten(calls, key)
    ensures i < |HitsOf(AllowedHits(calls), key)|
    ensures ForgottenFairly(calls, key, i, HitsOf(AllowedHits(calls), key)[i])
  {
    hide Run, AllowedHits, HitsOf, Allow, ForgottenFairly, Left;
    NothingRun();
    var front, c := calls[..|calls| - 1], calls[|calls| - 1];
    assert calls == front + [c];
    RemembersSuffix(front, key);
    OneCall(front, c, key);
    var hits, times := HitsOf(AllowedHits(front), key), TimesOf(Run(front).0, key);
    var at := HitsOf(AllowedHits(calls), key)[i];
    assert i < |hits| && at == hits[i];
    if i < Forgotten(front, key) {
      ForgottenOnlyFairly(front, key, i);
      StillFairly(front, c, key, i, at);
    } else {
      var j := i - (|hits| - |times|);
      assert times[j] == at;
      OneCallForgets(front, c, key, j);
      if at < c.now - SPAN { PoppedFairly(front, c, key, i, at); } else { EvictedFairly(front, c, key, i, at); }
    }
  }

  lemma {:induction false} PoppedFairly(front: seq<Call>, c: Call, key: string, i: nat, at: int)
    requires i < |HitsOf(AllowedHits(front), key)| && at < c.now - SPAN
    ensures ForgottenFairly(front + [c], key, i, at)
  {
    hide HitsOf, AllowedHits;
    assert (front + [c])[..|front|] == front;
    assert PassedBy(front + [c], key, i, at, |front|);
  }

  lemma {:induction false} EvictedFairly(front: seq<Call>, c: Call, key: string, i: nat, at: int)
    requires key in Run(front).0 && Idle(Run(front).0[key], c.now) && at >= c.now - SPAN
    requires i < |HitsOf(AllowedHits(front), key)|
    ensures ForgottenFairly(front + [c], key, i, at)
  {
    hide HitsOf, AllowedHits, Run;
    SomeCallSawLast(front, key);
    var m: nat :| LastSeenBy(front, key, m);
    assert (front + [c])[..m + 1] == front[..m + 1];
    assert PutBack(front + [c], key, i, at, m);
  }

  lemma {:induction false} TimesFromMember(times: seq<int>, cutoff: int)
    requires TimesFrom(times, cutoff) > 0
    ensures exists i :: 0 <= i < |times| && times[i] >= cutoff
  {
    if times[|times| - 1] < cutoff {
      TimesFromMember(times[..|times| - 1], cutoff);
      var i :| 0 <= i < |times| - 1 && times[..|times| - 1][i] >= cutoff;
      assert times[i] >= cutoff;
    }
  }

  lemma {:induction false} TimesFromAll(times: seq<int>, cutoff: int)
    requires forall i | 0 <= i < |times| :: times[i] >= cutoff
    ensures TimesFrom(times, cutoff) == |times|
  {
    if times != [] { TimesFromAll(times[..|times| - 1], cutoff); }
  }

  /**
   A hit is lost to a call only if an earlier call had a later clock, or a call of the key that came after the
   hit had a clock a whole window before it.
   */
  lemma {:induction false} LostOnlyOutOfOrder(calls: seq<Call>, c: Call)
    requires Lost(calls, c) > 0
    ensures exists i: nat, m: nat ::
      && i < |HitsOf(AllowedHits(calls), c.key)| && HitsOf(AllowedHits(calls), c.key)[i] >= c.now - SPAN
      && m <= |calls|
      && ((m < |calls| && calls[m].now > c.now && PassedBy(calls, c.key, i, HitsOf(AllowedHits(calls), c.key)[i], m))
          || PutBack(calls + [c], c.key, i, HitsOf(AllowedHits(calls), c.key)[i], m))
  {
    hide HitsOf, AllowedHits, Run, Allow, Left, IsSuffix, TimesOf, Forgotten;
    var hits, n := HitsOf(AllowedHits(calls), c.key), Forgotten(calls + [c], c.key);
    ForgottenSplits(calls, c);
    OneCall(calls, c, c.key);
    TimesFromMember(hits[..n], c.now - SPAN);
    var i :| 0 <= i < n && hits[..n][i] >= c.now - SPAN;
    ForgottenOnlyFairly(calls + [c], c.key, i);
    assert HitsOf(AllowedHits(calls + [c]), c.key)[i] == hits[i];
    if m: nat :| PutBack(calls + [c], c.key, i, hits[i], m) {
      assert m <= |calls|;
    } else {
      var m: nat :| PassedBy(calls + [c], c.key, i, hits[i], m);
      assert m < |calls| && calls[m].now > c.now && (calls + [c])[..m] == calls[..m];
      assert PassedBy(calls, c.key, i, hits[i], m);
    }
  }

  /** A hit is stuck only behind a fresher hit that was allowed before it. */
  lemma {:induction false} StuckOnlyOutOfOrder(calls: seq<Call>, c: Call)
    requires Stuck(calls, c) > 0
    ensures exists i: nat, j: nat ::
      && i < j < |HitsOf(AllowedHits(calls), c.key)|
      && HitsOf(AllowedHits(calls), c.key)[j] < c.now - SPAN <= HitsOf(AllowedHits(calls), c.key)[i]
  {
    hide HitsOf, AllowedHits, Run, Allow, Left, IsSuffix, TimesOf, Forgotten;
    var hits, n := HitsOf(AllowedHits(calls), c.key), Forgotten(calls + [c], c.key);
    ForgottenSplits(calls, c);
    OneCall(calls, c, c.key);
    var left := hits[n..];
    if forall k | 0 <= k < |left| :: left[k] >= c.now - SPAN {
      TimesFromAll(left, c.now - SPAN);
    } else {
      var k :| 0 <= k < |left| && left[k] < c.now - SPAN;
      assert hits[n] == left[0] && hits[n + k] == left[k];
    }
  }

  /** Three calls on one key with a limit of two. */
  function Three(a: int, b: int, c: int): seq<Call> {
    [Call("ip", a, 2), Call("ip", b, 2), Call("ip", c, 2)]
  }

  lemma {:induction false} RunOfThree(a: int, b: int, c: int)
    ensures Run(Three(a, b, c)).1 == [true, true, |LeftOfTwo(a, b, c)| < 2]
    ensures PlainRun(Three(a, b, c)).1 ==
      [true, true, (if a >= c - SPAN then 1 else 0) + (if b >= c - SPAN then 1 else 0) < 2]
  {
    hide Run, PlainRun, PopOld, Recent;
    var x, y, z := Call("ip", a, 2), Call("ip", b, 2), Call("ip", c, 2);
    LimiterOfTwo(x, y);
    PlainOfTwo(x, y);
    assert [x, y] + [z] == Three(a, b, c);
    RunAppend([x, y], z);
    PlainAppend([x, y], z);
    RecentOfTwo(a, b, c - SPAN);
  }

  lemma {:induction false} RecentOfTwo(a: int, b: int, cutoff: int)
    ensures Recent([Hit("ip", a)], "ip", cutoff) == if a >= cutoff then 1 else 0
    ensures Recent([Hit("ip", a), Hit("ip", b)], "ip", cutoff) ==
      (if a >= cutoff then 1 else 0) + (if b >= cutoff then 1 else 0)
  {
    var log := [Hit("ip", a), Hit("ip", b)];
    assert [Hit("ip", a)][..0] == [] && log[..1] == [Hit("ip", a)];
  }

  /** What the limiter still remembers at the third call. */
  function LeftOfTwo(a: int, b: int, c: int): seq<int> {
    PopOld(PopOld([a], b - SPAN) + [b], c - SPAN)
  }

  lemma {:induction false} PopOldOfOne(at: int, cutoff: int)
    ensures PopOld([at], cutoff) == if at < cutoff then [] else [at]
    ensures PopOld([], cutoff) == []
  {
    assert [at][1..] == [];
  }

  lemma {:induction false} SecondCall(x: Call, y: Call)
    requires x.key == y.key == "ip" && y.limit == 2
    ensures Allow(map["ip" := Window([x.now], x.now)], y) ==
      (map["ip" := Window(PopOld([x.now], y.now - SPAN) + [y.now], y.now)], true)
  {
    hide PopOld;
    PopOldOfOne(x.now, y.now - SPAN);
    var windows := map["ip" := Window([x.now], x.now)];
    assert |windows| == 1;
    var times := PopOld([x.now], y.now - SPAN) + [y.now];
    assert windows["ip" := Window(times, y.now)] == map["ip" := Window(times, y.now)];
  }

  lemma {:induction false} FirstCall(x: Call)
    requires x.key == "ip" && x.limit == 2
    ensures Allow(map[], x) == (map["ip" := Window([x.now], x.now)], true)
  {
    hide PopOld;
    PopOldOfOne(0, x.now - SPAN);
    assert [] + [x.now] == [x.now];
  }

  lemma {:induction false} LimiterOfTwo(x: Call, y: Call)
    requires x.key == y.key == "ip" && x.limit == y.limit == 2
    ensures Run([x, y]) == (map["ip" := Window(PopOld([x.now], y.now - SPAN) + [y.now], y.now)], [true, true])
  {
    hide Run, PopOld, PlainRun, AllowedHits, PlainAllows, Allow;
    NothingRun();
    assert [] + [x] == [x] && [x] + [y] == [x, y];
    assert [] + [true] == [true] && [true] + [true] == [true, true];
    RunAppend([], x);
    FirstCall(x);
    RunAppend([x], y);
    SecondCall(x, y);
  }

  lemma {:induction false} NoHits(cutoff: int)
    ensures Recent([], "ip", cutoff) == 0
  {
  }

  lemma {:induction false} PlainOfTwo(x: Call, y: Call)
    requires x.key == y.key == "ip" && x.limit == y.limit == 2
    ensures PlainRun([x, y]) == ([Hit("ip", x.now), Hit("ip", y.now)], [true, true])
  {
    hide PlainRun, Recent, Run, Allow, AllowedHits;
    NothingRun();
    assert [] + [x] == [x] && [x] + [y] == [x, y];
    NoHits(x.now - SPAN);
    assert [] + [Hit("ip", x.now)] == [Hit("ip", x.now)] && [] + [true] == [true] && [true] + [true] == [true, true];
    RunAppend([], x);
    assert PlainRun([x]) == ([Hit("ip", x.now)], [true]);
    RunAppend([x], y);
    RecentOfTwo(x.now, y.now, y.now - SPAN);
    assert [Hit("ip", x.now)] + [Hit("ip", y.now)] == [Hit("ip", x.now), Hit("ip", y.now)];
  }

  /** A call that read the clock at 30 s but takes the lock after one at 61 s is let in as a third hit. */
  lemma {:induction false} LateCallIsLetIn()
    ensures Run(Three(0, 61 * SECOND, 30 * SECOND)).1 == [true, true, true]
    ensures PlainRun(Three(0, 61 * SECOND, 30 * SECOND)).1 == [true, true, false]
  {
    RunOfThree(0, 61 * SECOND, 30 * SECOND);
    assert [0][1..] == [] && [] + [61 * SECOND] == [61 * SECOND];
  }

  /** A late hit at 0 s stays behind the one at 61 s, and a call at 100 s is refused although only one hit is recent. */
  lemma {:induction false} StuckHitRefuses()
    ensures Run(Three(61 * SECOND, 0, 100 * SECOND)).1 == [true, true, false]
    ensures PlainRun(Three(61 * SECOND, 0, 100 * SECOND)).1 == [true, true, true]
  {
    RunOfThree(61 * SECOND, 0, 100 * SECOND);
  }

  // ---------------------------------------------------------------- the limit

  /** The calls of a key all use a limit of at most n. */
  ghost predicate LimitedTo(calls: seq<Call>, key: string, n: nat) {
    forall c <- calls :: c.key == key ==> c.limit <= n
  }

  /** Any n+1 consecutive hits span more than the window. */
  ghost predicate Spread(times: seq<int>, n: nat) {
    forall i | n <= i < |times| :: times[i] - times[i - n] > SPAN
  }

  /** A sorted list with fewer than n hits since the cutoff has its n-th last hit before the cutoff. */
  lemma {:induction false} FewRecent(log: seq<Hit>, key: string, cutoff: int, n: nat)
    requires Sorted(HitsOf(log, key)) && Recent(log, key, cutoff) < n <= |HitsOf(log, key)|
    ensures HitsOf(log, key)[|HitsOf(log, key)| - n] < cutoff
  {
    var hits := HitsOf(log, key);
    var i := |hits| - n;
    if hits[i] >= cutoff { ManyRecent(log, key, cutoff, i); }
  }

  lemma {:induction false} ManyRecent(log: seq<Hit>, key: string, cutoff: int, i: nat)
    requires i <= |HitsOf(log, key)| && forall j | i <= j < |HitsOf(log, key)| :: HitsOf(log, key)[j] >= cutoff
    ensures Recent(log, key, cutoff) >= |HitsOf(log, key)| - i
  {
    if log != [] {
      var front, h := log[..|log| - 1], log[|log| - 1];
      var hits, before := HitsOf(log, key), HitsOf(front, key);
      assert forall j | 0 <= j < |before| :: before[j] == hits[j];
      if h.key == key { assert hits[|before|] == h.at; }
      if i <= |before| { ManyRecent(front, key, cutoff, i); }
    }
  }

  lemma {:induction false} HitsAreSpread(calls: seq<Call>, key: string, n: nat)
    requires InClockOrder(calls) && LimitedTo(calls, key, n)
    ensures Spread(HitsOf(PlainRun(calls).0, key), n)
  {
    if calls != [] {
      hide HitsOf, Spread, PlainAllows;
      var front, c := calls[..|calls| - 1], calls[|calls| - 1];
      HitsAreSpread(front, key, n);
      PlainHitsAreSorted(front, key);
      var log := PlainRun(front).0;
      if PlainAllows(log, c) {
        assert c in calls;
        OneMoreIsSpread(log, c, key, n);
      }
    } else {
      assert HitsOf([], key) == [];
    }
  }

  lemma {:induction false} PlainHitsAreSorted(calls: seq<Call>, key: string)
    requires InClockOrder(calls)
    ensures Sorted(HitsOf(PlainRun(calls).0, key))
  {
    hide PlainRun, Run, HitsOf, Remembers, Bounded, Sorted;
    RunRefines(calls, key);
    var last := if calls == [] then 0 else calls[|calls| - 1].now;
    assert KeyRefines(Run(calls).0, key, HitsOf(PlainRun(calls).0, key), last);
  }

  lemma {:induction false} OneMoreIsSpread(log: seq<Hit>, c: Call, key: string, n: nat)
    requires PlainAllows(log, c) && (c.key == key ==> c.limit <= n)
    requires Sorted(HitsOf(log, key)) && Spread(HitsOf(log, key), n)
    ensures Spread(HitsOf(log + [Hit(c.key, c.now)], key), n)
  {
    hide Sorted, Recent;
    var hits := HitsOf(log, key);
    HitsAppend(log, Hit(c.key, c.now), key);
    if c.key == key && n <= |hits| { FewRecent(log, key, c.now - SPAN, n); }
    assert forall i | n <= i < |hits| :: hits[i] - hits[i - n] > SPAN;
  }

  /** The number of hits of a key in an interval of the log. */
  function Within(times: seq<int>, from: int, to: int): nat {
    if times == [] then 0 else
    Within(times[..|times| - 1], from, to) + (if from <= times[|times| - 1] <= to then 1 else 0)
  }

  lemma {:induction false} SpreadBoundsCount(times: seq<int>, n: nat, from: int)
    requires Sorted(times) && Spread(times, n)
    ensures Within(times, from, from + SPAN) <= n
  {
    if |times| > 0 {
      var m := |times| - 1;
      assert forall i | n <= i < m :: times[..m][i] - times[..m][i - n] > SPAN;
      SpreadBoundsCount(times[..m], n, from);
      if from <= times[m] <= from + SPAN {
        if m >= n {
          assert times[m] - times[m - n] > SPAN;
          OnlyLateOnes(times[..m], m - n, from);
        } else {
          CountIsAtMostLength(times, from);
        }
      }
    }
  }

  lemma {:induction false} CountIsAtMostLength(times: seq<int>, from: int)
    ensures Within(times, from, from + SPAN) <= |times|
  {
    if times != [] { CountIsAtMostLength(times[..|times| - 1], from); }
  }

  /** Hits up to index k are before the interval, so at most the rest are in it. */
  lemma {:induction false} OnlyLateOnes(times: seq<int>, k: nat, from: int)
    requires Sorted(times) && (k < |times| ==> times[k] < from) && (k >= |times| ==> times == [])
    ensures Within(times, from, from + SPAN) <= if times == [] then 0 else |times| - 1 - k
  {
    if times != [] {
      var m := |times| - 1;
      if k == m {
        AllBefore(times, from);
      } else {
        OnlyLateOnes(times[..m], k, from);
      }
    }
  }

  lemma {:induction false} AllBefore(times: seq<int>, from: int)
    requires Sorted(times) && (times != [] ==> times[|times| - 1] < from)
    ensures Within(times, from, from + SPAN) == 0
  {
    if times != [] {
      if |times| > 1 { assert times[|times| - 2] <= times[|times| - 1]; }
      AllBefore(times[..|times| - 1], from);
    }
  }

  /**
   At most n hits of a key are allowed in any window of sixty seconds, ends included, whatever
   pruning and eviction do in between.
   */
  lemma {:induction false} AtMostLimitPerWindow(calls: seq<Call>, key: string, n: nat, from: int)
    requires InClockOrder(calls) && LimitedTo(calls, key, n)
    ensures Within(HitsOf(PlainRun(calls).0, key), from, from + SPAN) <= n
    ensures Run(calls).1 == PlainRun(calls).1
  {
    RunRefines(calls, key);
    PlainHitsAreSorted(calls, key);
    HitsAreSpread(calls, key, n);
    SpreadBoundsCount(HitsOf(PlainRun(calls).0, key), n, from);
  }

  // --------------------------------------------------------- the shared table

  class SlidingWindowLimiter {
    var windows: map<string, Window>

    constructor ()
      ensures windows == map[]
    {
      windows := map[];
    }

    method PruneExpired(now: int)
      modifies this
      ensures windows == Prune(old(windows), now)
    {
      if |windows| < SWEEP_THRESHOLD { return; }
      windows := map k | k in windows && !Idle(windows[k], now) :: windows[k];
    }

    method Admit(key: string, limit: nat, now: int) returns (allowed: bool)
      modifies this
      ensures (windows, allowed) == Allow(old(windows), Call(key, now, limit))
    {
      PruneExpired(now);
      var times := if key in windows then windows[key].times else [];
      ghost var start := times;
      var cutoff := now - SPAN;
      while times != [] && times[0] < cutoff
        invariant PopOld(times, cutoff) == PopOld(start, cutoff)
      {
        times := times[1..];
      }
      allowed := |times| < limit;
      windows := windows[key := Window(if allowed then times + [now] else times, now)];
    }
  }
}
