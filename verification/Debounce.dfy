/** The brute-force alert debounce: a map of last alert times that is pruned and, under a flood of
    keys, thrown away. */
module Debounce {
  import Seqs

  const PRUNE_ABOVE: nat := 4096
  const HARD_CEILING: nat := 8192

  type Times = map<string, int>

  datatype Call = Call(key: string, now: int)

  predicate Allows(last: Times, c: Call, window: int) {
    !(c.key in last && c.now - last[c.key] < window)
  }

  /** The reference: a map that is never pruned. */
  function Unpruned(last: Times, c: Call, window: int): Times {
    if Allows(last, c, window) then last[c.key := c.now] else last
  }

  function Survivors(last: Times, now: int, window: int): Times {
    map k | k in last && now - last[k] <= window :: last[k]
  }

  /** The map after a call, and whether the hard ceiling wiped it. */
  function Kept(last: Times, c: Call, window: int): (Times, bool) {
    var m := Unpruned(last, c, window);
    if !Allows(last, c, window) || |m| <= PRUNE_ABOVE then (m, false)
    else
      var s := Survivors(m, c.now, window);
      if |s| > HARD_CEILING then (map[], true) else (s, false)
  }

  /** The pruned map knows nothing false, and has forgotten only alerts that are older than the window. */
  ghost predicate Simulates(pruned: Times, full: Times, clock: int, window: int) {
    && pruned.Keys <= full.Keys
    && (forall k | k in pruned :: pruned[k] == full[k])
    && (forall k | k in full && k !in pruned :: clock - full[k] > window)
  }

  /** The clock is read before the lock is taken. While it advances by at most one unit in between, a
      call decides as the unpruned map does. */
  lemma CallKeepsSimulation(pruned: Times, full: Times, c: Call, before: int, locked: int, window: int)
    requires Simulates(pruned, full, before, window) && before <= locked && c.now <= locked <= c.now + 1
    ensures Allows(pruned, c, window) <==> Allows(full, c, window)
    ensures !Kept(pruned, c, window).1 ==>
      Simulates(Kept(pruned, c, window).0, Unpruned(full, c, window), locked, window)
  {
  }

  // ---- Runs ---------------------------------------------------------------------------------

  /** Calls in the order in which they take the lock, with the clock at that moment: each has read the
      clock before, but at most the given time before. */
  ghost predicate Timely(calls: seq<Call>, locked: seq<int>, patience: nat) {
    && |locked| == |calls|
    && (forall i | 0 <= i < |calls| :: calls[i].now <= locked[i] <= calls[i].now + patience)
    && (forall i, j | 0 <= i < j < |calls| :: locked[i] <= locked[j])
  }

  /** The decisions of the pruned map, as long as no call hits the ceiling. */
  function Decisions(last: Times, calls: seq<Call>, window: int): (r: seq<bool>)
    ensures |r| == |calls|
    decreases |calls|
  {
    if calls == [] then []
    else [Allows(last, calls[0], window)] + Decisions(Kept(last, calls[0], window).0, calls[1..], window)
  }

  function UnprunedDecisions(last: Times, calls: seq<Call>, window: int): (r: seq<bool>)
    ensures |r| == |calls|
    decreases |calls|
  {
    if calls == [] then []
    else [Allows(last, calls[0], window)] + UnprunedDecisions(Unpruned(last, calls[0], window), calls[1..], window)
  }

  predicate Wiped(last: Times, calls: seq<Call>, window: int)
    decreases |calls|
  {
    calls != [] && (Kept(last, calls[0], window).1 || Wiped(Kept(last, calls[0], window).0, calls[1..], window))
  }

  /** A run of calls on a fresh map, as the detector starts and as every hard reset leaves it, up to the
      next hard reset. */
  ghost predicate Run(calls: seq<Call>, locked: seq<int>, window: int, patience: nat) {
    Timely(calls, locked, patience) && !Wiped(map[], calls, window)
  }

  ghost predicate DecidesAsUnpruned(calls: seq<Call>, window: int) {
    Decisions(map[], calls, window) == UnprunedDecisions(map[], calls, window)
  }

  /** Two alerts in succession: both calls are of one key and allowed, and none between them is. */
  ghost predicate Successive(calls: seq<Call>, window: int, i: nat, j: nat) {
    && i < j < |calls| && calls[i].key == calls[j].key
    && Decisions(map[], calls, window)[i] && Decisions(map[], calls, window)[j]
    && forall m | i < m < j && calls[m].key == calls[j].key :: !Decisions(map[], calls, window)[m]
  }

  ghost predicate Spaced(calls: seq<Call>, window: int, gap: int) {
    forall i: nat, j: nat | Successive(calls, window, i, j) :: calls[j].now - calls[i].now >= gap
  }

  lemma LaterTimely(calls: seq<Call>, locked: seq<int>, patience: nat)
    requires Timely(calls, locked, patience) && calls != []
    ensures Timely(calls[1..], locked[1..], patience) && forall t | t in locked[1..] :: locked[0] <= t
  {
  }

  /** Until a hard reset, pruning changes no decision of calls that wait at most one unit for the lock. */
  lemma {:induction false} PruningInvisible(pruned: Times, full: Times, calls: seq<Call>, locked: seq<int>,
                                            before: int, window: int)
    requires Simulates(pruned, full, before, window) && Timely(calls, locked, 1)
    requires forall t | t in locked :: before <= t
    requires !Wiped(pruned, calls, window)
    ensures Decisions(pruned, calls, window) == UnprunedDecisions(full, calls, window)
    decreases |calls|
  {
    if calls != [] {
      assert locked[0] in locked;
      CallKeepsSimulation(pruned, full, calls[0], before, locked[0], window);
      LaterTimely(calls, locked, 1);
      hide Kept;
      hide Unpruned;
      hide Simulates;
      PruningInvisible(Kept(pruned, calls[0], window).0, Unpruned(full, calls[0], window), calls[1..], locked[1..],
                       locked[0], window);
    }
  }

  function FirstLocked(locked: seq<int>): int {
    if locked == [] then 0 else locked[0]
  }

  lemma FreshMapDecides(calls: seq<Call>, locked: seq<int>, window: int)
    requires Run(calls, locked, window, 1)
    ensures DecidesAsUnpruned(calls, window)
  {
    PruningInvisible(map[], map[], calls, locked, FirstLocked(locked), window);
  }

  /** What is known of a key alerted at time t: its time is kept, or was pruned. */
  ghost predicate Remembers(last: Times, key: string, t: int, clock: int, window: int) {
    if key in last then last[key] == t else clock - t > window
  }

  lemma OtherCallRemembers(last: Times, c: Call, locked: int, key: string, t: int, clock: int, window: int)
    requires Remembers(last, key, t, clock, window) && clock <= locked && c.now <= locked
    requires !Kept(last, c, window).1 && (c.key == key ==> !Allows(last, c, window))
    ensures Remembers(Kept(last, c, window).0, key, t, locked, window)
  {
  }

  lemma OwnCallRemembers(last: Times, c: Call, locked: int, window: int)
    requires c.now <= locked && Allows(last, c, window) && !Kept(last, c, window).1
    ensures Remembers(Kept(last, c, window).0, c.key, c.now, locked, window)
  {
  }

  /** The least distance of two successive alerts of one key. */
  function Distance(window: int, patience: nat): int {
    window + 1 - if patience == 0 then 1 else patience
  }

  lemma {:induction false} NextAlert(last: Times, calls: seq<Call>, locked: seq<int>, clock: int, window: int,
                                     patience: nat, key: string, t: int, j: nat)
    requires Timely(calls, locked, patience) && !Wiped(last, calls, window)
    requires (forall x | x in locked :: clock <= x) && Remembers(last, key, t, clock, window)
    requires j < |calls| && calls[j].key == key && Decisions(last, calls, window)[j]
    requires forall m | 0 <= m < j && calls[m].key == key :: !Decisions(last, calls, window)[m]
    ensures calls[j].now - t >= Distance(window, patience)
    decreases |calls|
  {
    assert locked[0] in locked;
    if j > 0 {
      var next := Kept(last, calls[0], window).0;
      OtherCallRemembers(last, calls[0], locked[0], key, t, clock, window);
      LaterTimely(calls, locked, patience);
      hide Kept;
      hide Remembers;
      forall m | 0 <= m < j - 1 && calls[1..][m].key == key ensures !Decisions(next, calls[1..], window)[m] {
        assert Decisions(last, calls, window)[m + 1] == Decisions(next, calls[1..], window)[m];
      }
      NextAlert(next, calls[1..], locked[1..], locked[0], window, patience, key, t, j - 1);
    }
  }

  lemma {:induction false} AlertsSpaced(last: Times, calls: seq<Call>, locked: seq<int>, window: int, patience: nat,
                                        i: nat, j: nat)
    requires Timely(calls, locked, patience) && !Wiped(last, calls, window)
    requires i < j < |calls| && calls[i].key == calls[j].key
    requires Decisions(last, calls, window)[i] && Decisions(last, calls, window)[j]
    requires forall m | i < m < j && calls[m].key == calls[j].key :: !Decisions(last, calls, window)[m]
    ensures calls[j].now - calls[i].now >= Distance(window, patience)
    decreases |calls|
  {
    var next := Kept(last, calls[0], window).0;
    LaterTimely(calls, locked, patience);
    if i == 0 {
      OwnCallRemembers(last, calls[0], locked[0], window);
    }
    hide Kept;
    hide Remembers;
    forall m | 0 <= m < |calls| - 1
      ensures Decisions(last, calls, window)[m + 1] == Decisions(next, calls[1..], window)[m] {
    }
    if i == 0 {
      NextAlert(next, calls[1..], locked[1..], locked[0], window, patience, calls[0].key, calls[0].now, j - 1);
    } else {
      AlertsSpaced(next, calls[1..], locked[1..], window, patience, i - 1, j - 1);
    }
  }

  lemma OneCall(last: Times, c: Call, more: seq<Call>, window: int)
    ensures Decisions(last, [c] + more, window)
         == [Allows(last, c, window)] + Decisions(Kept(last, c, window).0, more, window)
    ensures UnprunedDecisions(last, [c] + more, window)
         == [Allows(last, c, window)] + UnprunedDecisions(Unpruned(last, c, window), more, window)
    ensures Wiped(last, [c] + more, window)
       <==> Kept(last, c, window).1 || Wiped(Kept(last, c, window).0, more, window)
  {
    Seqs.Cons(c, more);
  }

  lemma NoCall(last: Times, window: int)
    ensures Decisions(last, [], window) == [] == UnprunedDecisions(last, [], window) && !Wiped(last, [], window)
  {
  }

  // ---- A flood of keys between ---------------------------------------------------------------

  function Key(n: nat): string {
    seq(n, _ => 'k')
  }

  lemma KeyLength(n: nat)
    ensures |Key(n)| == n
  {
  }

  /** One call for each of n keys, all at time 0, and the map they leave. */
  function Flood(n: nat): seq<Call> {
    if n == 0 then [] else Flood(n - 1) + [Call(Key(n - 1), 0)]
  }

  function FloodMap(n: nat): Times {
    if n == 0 then map[] else FloodMap(n - 1)[Key(n - 1) := 0]
  }

  lemma {:induction false} FloodKeys(n: nat)
    ensures |FloodMap(n)| == n && forall k | k in FloodMap(n) :: |k| < n && FloodMap(n)[k] == 0
    ensures n > 0 ==> Key(0) in FloodMap(n)
  {
    if n > 0 {
      FloodKeys(n - 1);
      KeyLength(n - 1);
    }
  }

  lemma FloodCall(n: nat, window: int)
    requires window > 0 && n < HARD_CEILING
    ensures var m, c := FloodMap(n), Call(Key(n), 0);
      Allows(m, c, window) && Unpruned(m, c, window) == FloodMap(n + 1)
        && Kept(m, c, window) == (FloodMap(n + 1), false)
  {
    FloodKeys(n);
    FloodKeys(n + 1);
    KeyLength(n);
    assert Survivors(FloodMap(n + 1), 0, window) == FloodMap(n + 1);
  }

  function Trues(n: nat): seq<bool> {
    if n == 0 then [] else Trues(n - 1) + [true]
  }

  lemma {:induction false} TruesLength(n: nat)
    ensures |Trues(n)| == n && (n > 0 ==> Trues(n)[0])
  {
    if n > 0 {
      TruesLength(n - 1);
    }
  }

  lemma FloodSnoc(n: nat)
    ensures Flood(0) == [] && Trues(0) == [] && FloodMap(0) == map[]
    ensures n > 0 ==> Flood(n) == Flood(n - 1) + [Call(Key(n - 1), 0)] && Trues(n) == Trues(n - 1) + [true]
  {
  }

  lemma FloodStep(n: nat, more: seq<Call>, window: int)
    requires window > 0 && n < HARD_CEILING
    ensures var m, next, later := FloodMap(n), FloodMap(n + 1), [Call(Key(n), 0)] + more;
      && (Wiped(m, later, window) <==> Wiped(next, more, window))
      && Decisions(m, later, window) == [true] + Decisions(next, more, window)
      && UnprunedDecisions(m, later, window) == [true] + UnprunedDecisions(next, more, window)
  {
    hide Allows;
    hide Kept;
    hide Unpruned;
    hide Key;
    hide Decisions;
    hide UnprunedDecisions;
    hide Wiped;
    FloodCall(n, window);
    OneCall(FloodMap(n), Call(Key(n), 0), more, window);
  }

  lemma {:induction false} AfterFlood(n: nat, more: seq<Call>, window: int)
    requires window > 0 && n <= PRUNE_ABOVE + 1
    ensures Wiped(map[], Flood(n) + more, window) <==> Wiped(FloodMap(n), more, window)
    ensures Decisions(map[], Flood(n) + more, window) == Trues(n) + Decisions(FloodMap(n), more, window)
    ensures UnprunedDecisions(map[], Flood(n) + more, window) == Trues(n) + UnprunedDecisions(FloodMap(n), more, window)
  {
    hide Flood;
    hide FloodMap;
    hide Trues;
    hide Allows;
    hide Kept;
    hide Unpruned;
    hide Key;
    hide Decisions;
    hide UnprunedDecisions;
    hide Wiped;
    FloodSnoc(n);
    if n == 0 {
      Seqs.Empty(more);
      Seqs.Empty(Decisions(map[], more, window));
      Seqs.Empty(UnprunedDecisions(map[], more, window));
    } else {
      var c := Call(Key(n - 1), 0);
      AfterFlood(n - 1, [c] + more, window);
      FloodStep(n - 1, more, window);
      Seqs.Assoc(Flood(n - 1), [c], more);
      Seqs.Assoc(Trues(n - 1), [true], Decisions(FloodMap(n), more, window));
      Seqs.Assoc(Trues(n - 1), [true], UnprunedDecisions(FloodMap(n), more, window));
    }
  }

  lemma {:induction false} FloodAt(n: nat, m: nat)
    requires m < n
    ensures |Flood(n)| == n && Flood(n)[m] == Call(Key(m), 0)
  {
    hide Key;
    if m < n - 1 {
      FloodAt(n - 1, m);
    } else if n > 1 {
      FloodAt(n - 1, 0);
    }
  }

  /** The first key once more, its call overtaken by one of a new key that has it pruned. */
  function Overtaken(n: nat, window: int, patience: nat): seq<Call> {
    [Call(Key(n), window + 1), Call(Key(0), window + 1 - patience)]
  }

  lemma TwoCalls(last: Times, kept: Times, c: Call, c': Call, window: int)
    requires Allows(last, c, window) && Kept(last, c, window) == (kept, false)
    requires Allows(kept, c', window) && !Kept(kept, c', window).1
    ensures Decisions(last, [c, c'], window) == [true, true] && !Wiped(last, [c, c'], window)
    ensures UnprunedDecisions(last, [c, c'], window) == [true, Allows(Unpruned(last, c, window), c', window)]
  {
    hide *;
    assert [c] + [c'] == [c, c'] && [c'] + [] == [c'];
    OneCall(last, c, [c'], window);
    OneCall(kept, c', [], window);
    OneCall(Unpruned(last, c, window), c', [], window);
    NoCall(Kept(kept, c', window).0, window);
    NoCall(Unpruned(Unpruned(last, c, window), c', window), window);
  }

  lemma OvertakenKept(n: nat, window: int)
    requires n == PRUNE_ABOVE + 1 && window > 0
    ensures var c, m := Call(Key(n), window + 1), FloodMap(n);
      && Allows(m, c, window) && Kept(m, c, window) == (map[c.key := c.now], false)
      && Unpruned(m, c, window) == m[c.key := c.now]
  {
    hide Key;
    hide FloodMap;
    var c, m := Call(Key(n), window + 1), FloodMap(n);
    FloodKeys(n);
    KeyLength(n);
    assert |m[c.key := c.now]| == n + 1;
    var s := Survivors(m[c.key := c.now], c.now, window);
    assert s == map[c.key := c.now];
  }

  lemma OvertakenDecides(n: nat, window: int, patience: nat)
    requires n == PRUNE_ABOVE + 1 && window > 0 && patience >= 2
    ensures var more := Overtaken(n, window, patience);
      && !Wiped(FloodMap(n), more, window) && Decisions(FloodMap(n), more, window) == [true, true]
      && UnprunedDecisions(FloodMap(n), more, window) == [true, false]
  {
    hide Key;
    hide FloodMap;
    hide Wiped;
    hide Decisions;
    hide UnprunedDecisions;
    var more, m := Overtaken(n, window, patience), FloodMap(n);
    var c, c' := more[0], more[1];
    var kept: Times := map[c.key := c.now];
    KeyLength(0);
    KeyLength(n);
    FloodKeys(n);
    OvertakenKept(n, window);
    assert Allows(kept, c', window) && !Allows(m[c.key := c.now], c', window);
    assert |kept[c'.key := c'.now]| == 2 && !Kept(kept, c', window).1;
    TwoCalls(m, kept, c, c', window);
  }

  function FloodLocked(n: nat, window: int): seq<int> {
    seq(n, _ => 0) + [window + 1, window + 1]
  }

  lemma FloodTimely(n: nat, window: int, patience: nat)
    requires window > 0
    ensures var calls := Flood(n) + Overtaken(n, window, patience);
      Timely(calls, FloodLocked(n, window), patience) && |calls| == n + 2
    ensures var calls := Flood(n) + Overtaken(n, window, patience);
      && (forall m | 0 <= m <= n :: calls[m].key == Key(m)) && calls[n + 1] == Call(Key(0), window + 1 - patience)
      && calls[0].now == if n == 0 then window + 1 else 0
  {
    hide Key;
    hide Flood;
    FloodLength(n);
    var flood, more := Flood(n), Overtaken(n, window, patience);
    forall m | 0 <= m < n ensures flood[m] == Call(Key(m), 0) {
      FloodAt(n, m);
    }
    var calls, locked := flood + more, FloodLocked(n, window);
    assert calls[n] == more[0] && calls[n + 1] == more[1];
    assert forall m | 0 <= m < n :: calls[m] == flood[m] && locked[m] == 0;
  }

  lemma {:induction false} FloodLength(n: nat)
    ensures |Flood(n)| == n
  {
    if n > 0 {
      FloodLength(n - 1);
    }
  }

  lemma FloodDecides(n: nat, window: int, patience: nat)
    requires n == PRUNE_ABOVE + 1 && window > 0 && patience >= 2
    ensures var calls := Flood(n) + Overtaken(n, window, patience);
      && |calls| == n + 2 && !Wiped(map[], calls, window) && !UnprunedDecisions(map[], calls, window)[n + 1]
      && Decisions(map[], calls, window)[0] && Decisions(map[], calls, window)[n + 1]
  {
    hide Flood;
    hide FloodMap;
    hide Overtaken;
    hide Decisions;
    hide UnprunedDecisions;
    hide Wiped;
    var more := Overtaken(n, window, patience);
    FloodTimely(n, window, patience);
    TruesLength(n);
    AfterFlood(n, more, window);
    OvertakenDecides(n, window, patience);
  }

  /** With calls that wait two units or more, the overtaken call is allowed too early. */
  lemma OvertakenRun(n: nat, window: int, patience: nat)
    requires n == PRUNE_ABOVE + 1 && window > 0 && patience >= 2
    ensures var calls := Flood(n) + Overtaken(n, window, patience);
      && Run(calls, FloodLocked(n, window), window, patience) && !DecidesAsUnpruned(calls, window)
      && Successive(calls, window, 0, n + 1) && calls[n + 1].now - calls[0].now == Distance(window, patience)
  {
    hide Decisions;
    hide UnprunedDecisions;
    hide Wiped;
    hide Flood;
    hide FloodMap;
    hide Key;
    hide Timely;
    hide Overtaken;
    hide FloodLocked;
    var calls := Flood(n) + Overtaken(n, window, patience);
    FloodTimely(n, window, patience);
    FloodDecides(n, window, patience);
    forall m | 0 < m < n + 1 ensures calls[m].key != calls[0].key {
      KeyLength(m);
      KeyLength(0);
    }
  }

  /** Two calls a window apart. */
  lemma PromptRun(window: int, patience: nat)
    requires window > 0
    ensures var calls := [Call(Key(0), 0), Call(Key(0), window)];
      Run(calls, [0, window], window, patience) && Successive(calls, window, 0, 1)
  {
    hide Decisions;
    hide Wiped;
    hide Key;
    var c, c' := Call(Key(0), 0), Call(Key(0), window);
    var m: Times := map[c.key := 0];
    assert Unpruned(map[], c, window) == m && |m| == 1 && Kept(map[], c, window) == (m, false);
    assert |Unpruned(m, c', window)| == 1;
    TwoCalls(map[], m, c, c', window);
  }

  // ---- What the debounce promises ------------------------------------------------------------

  /** From a fresh map until the next hard reset, pruning changes no decision, exactly when no call reads
      the clock more than one unit before it takes the lock. */
  lemma PruningInvisibleExactly(window: int, patience: nat)
    requires window > 0
    ensures (forall calls: seq<Call>, locked | Run(calls, locked, window, patience) :: DecidesAsUnpruned(calls, window))
       <==> patience <= 1
  {
    if patience <= 1 {
      forall calls: seq<Call>, locked | Run(calls, locked, window, patience) ensures DecidesAsUnpruned(calls, window) {
        FreshMapDecides(calls, locked, window);
      }
    } else {
      OvertakenRun(PRUNE_ABOVE + 1, window, patience);
    }
  }

  /** Two successive alerts of one key are a window apart, less what a call waits for the lock beyond one
      unit; and no greater distance holds of all runs. */
  lemma AlertsSpacedExactly(window: int, patience: nat, gap: int)
    requires window > 0
    ensures (forall calls: seq<Call>, locked | Run(calls, locked, window, patience) :: Spaced(calls, window, gap))
       <==> gap <= Distance(window, patience)
  {
    if gap <= Distance(window, patience) {
      forall calls: seq<Call>, locked | Run(calls, locked, window, patience) ensures Spaced(calls, window, gap) {
        forall i: nat, j: nat | Successive(calls, window, i, j) ensures calls[j].now - calls[i].now >= gap {
          AlertsSpaced(map[], calls, locked, window, patience, i, j);
        }
      }
    } else if patience >= 2 {
      OvertakenRun(PRUNE_ABOVE + 1, window, patience);
    } else {
      PromptRun(window, patience);
    }
  }

  // ---- The detector's map -------------------------------------------------------------------

  class Detector {
    var lastBrute: Times

    constructor ()
      ensures lastBrute == map[]
    {
      lastBrute := map[];
    }

    method AllowBrute(key: string, window: int, now: int) returns (allowed: bool)
      modifies this
      ensures allowed == Allows(old(lastBrute), Call(key, now), window)
      ensures lastBrute == Kept(old(lastBrute), Call(key, now), window).0
      ensures allowed <==> key !in old(lastBrute) || now - old(lastBrute)[key] >= window
      ensures !allowed ==> lastBrute == old(lastBrute)
      ensures allowed ==>
        var m := old(lastBrute)[key := now];
        var recent := map k | k in m && now - m[k] <= window :: m[k];
        lastBrute == if |m| <= 4096 then m else if |recent| <= 8192 then recent else map[]
      ensures |old(lastBrute)| <= 8192 ==> |lastBrute| <= 8192
    {
      ghost var c := Call(key, now);
      if key in lastBrute && now - lastBrute[key] < window {
        return false;
      }
      lastBrute := lastBrute[key := now];
      ghost var full := lastBrute;
      if |lastBrute| > PRUNE_ABOVE {
        var left := lastBrute.Keys;
        while left != {}
          invariant left <= full.Keys
          invariant lastBrute.Keys <= full.Keys && left <= lastBrute.Keys
          invariant forall k | k in lastBrute :: lastBrute[k] == full[k]
          invariant forall k | k in full.Keys - left :: k in lastBrute <==> now - full[k] <= window
          decreases left
        {
          var k :| k in left;
          left := left - {k};
          if now - lastBrute[k] > window {
            lastBrute := lastBrute - {k};
          }
        }
        assert lastBrute == Survivors(full, now, window);
        if |lastBrute| > HARD_CEILING {
          lastBrute := map[];
        }
      }
      return true;
    }
  }
}
