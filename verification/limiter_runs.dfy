/**
  * Whole runs of the failure limiter, set against an unbounded reference limiter that never
  * prunes and never evicts: soundness, exactness, and blocks that cannot be flushed.
  */
module LimiterRuns {
  import opened SlidingWindow

  /** `kept` is the limiter's map; `seen` is every failure recorded since the key's last reset. */
  datatype State = State(kept: Logs, seen: Logs, clock: int)

  datatype Op =
    | Check(key: Key, pruneAt: int, sweepAt: int)
    | Fail(key: Key, pruneAt: int, recordAt: int, sweepAt: int)
    | Reset(key: Key)

  datatype Event = Event(op: Op, answer: bool, after: State)

  function Init(): State {
    State(map[], map[], 0)
  }

  function AfterExpiry(p: Params, m: Logs, cutoff: int): Logs {
    if |m| <= p.capacity then m else Unexpired(m, cutoff)
  }

  ghost predicate Swept(p: Params, m: Logs, m': Logs, protect: Key, cutoff: int) {
    Sweeps(p, m, AfterExpiry(p, m, cutoff), m', protect, cutoff)
  }

  /** The limiter's map just before the call sweeps. */
  function Worked(p: Params, m: Logs, op: Op): Logs {
    match op
    case Check(key, pruneAt, _) => Pruned(m, key, pruneAt - p.window)
    case Fail(key, pruneAt, recordAt, _) =>
      var pruned := Pruned(m, key, pruneAt - p.window);
      pruned[key := LogOf(pruned, key) + [recordAt]]
    case Reset(key) => m - {key}
  }

  /** What the reference remembers after the call. */
  function Remembered(seen: Logs, op: Op): Logs {
    match op
    case Check(_, _, _) => seen
    case Fail(key, _, recordAt, _) => seen[key := LogOf(seen, key) + [recordAt]]
    case Reset(key) => seen - {key}
  }

  /** The call reads the clock in nondecreasing order, and ends at `now`. */
  predicate Timely(clock: int, op: Op, now: int) {
    match op
    case Check(_, pruneAt, sweepAt) => clock <= pruneAt <= sweepAt == now
    case Fail(_, pruneAt, recordAt, sweepAt) => clock <= pruneAt <= recordAt <= sweepAt == now
    case Reset(_) => clock == now
  }

  ghost predicate Step(p: Params, s: State, e: Event) {
    var m, t := Worked(p, s.kept, e.op), e.after;
    && Timely(s.clock, e.op, t.clock)
    && t.seen == Remembered(s.seen, e.op)
    && (if e.op.Reset? then t.kept == m else Swept(p, m, t.kept, e.op.key, t.clock - p.window))
    && (e.op.Check? ==> e.answer == Blocked(p, t.kept, e.op.key))
  }

  ghost predicate Runs(p: Params, s: State, events: seq<Event>)
    decreases |events|
  {
    events != [] ==> Step(p, s, events[0]) && Runs(p, events[0].after, events[1..])
  }

  /** What a step says, for proofs that need no more than this. */
  lemma StepMeans(p: Params, s: State, e: Event)
    requires Step(p, s, e)
    ensures Timely(s.clock, e.op, e.after.clock) && e.after.seen == Remembered(s.seen, e.op)
    ensures e.op.Reset? ==> e.after.kept == Worked(p, s.kept, e.op)
    ensures !e.op.Reset? ==>
              Swept(p, Worked(p, s.kept, e.op), e.after.kept, e.op.key, e.after.clock - p.window)
  {
    hide Recent, Worked, Remembered, Swept;
  }

  // ---------------------------------------------------------------- what each call does to one key

  function PruneTime(op: Op): int {
    if op.Reset? then 0 else op.pruneAt
  }

  function Fresh(op: Op): Log {
    if op.Fail? then [op.recordAt] else []
  }

  /** The call prunes and extends the log of its own key only, as the reference extends it. */
  lemma WorkedLog(p: Params, m: Logs, op: Op, k: Key)
    ensures LogOf(Worked(p, m, op), k) ==
              if k != op.key then LogOf(m, k)
              else if op.Reset? then []
              else Recent(LogOf(m, k), PruneTime(op) - p.window) + Fresh(op)
    ensures Worked(p, m, op).Keys <= m.Keys + {op.key}
    ensures !op.Fail? ==> Worked(p, m, op).Keys <= m.Keys
  {
  }

  lemma RememberedLog(seen: Logs, op: Op, k: Key)
    ensures LogOf(Remembered(seen, op), k) ==
              if k != op.key then LogOf(seen, k)
              else if op.Reset? then []
              else LogOf(seen, k) + Fresh(op)
  {
  }

  predicate Evicted(p: Params, m: Logs, m': Logs, cutoff: int, k: Key) {
    |m| > p.capacity && k in Unexpired(m, cutoff) && k !in m'
  }

  /** A sweep leaves every key's window alone, except that it may evict the key. */
  lemma SweptLog(p: Params, m: Logs, m': Logs, protect: Key, cutoff: int, k: Key, c: int)
    requires Swept(p, m, m', protect, cutoff) && c >= cutoff
    ensures if Evicted(p, m, m', cutoff, k) then LogOf(m', k) == []
            else Recent(LogOf(m', k), c) == Recent(LogOf(m, k), c)
  {
    RecentTwice(LogOf(m, k), cutoff, c);
  }

  /** Never more than the reference remembers, whatever the window. */
  ghost predicate Dominated(kept: Log, seen: Log) {
    forall c :: |Recent(kept, c)| <= |Recent(seen, c)|
  }

  ghost predicate Inv(p: Params, s: State) {
    && |s.kept| <= p.capacity
    && (forall k :: k in s.kept ==> s.kept[k] != [])
    && (forall k :: Dominated(LogOf(s.kept, k), LogOf(s.seen, k)))
  }

  lemma PrunedIsDominated(times: Log, cutoff: int)
    ensures Dominated(Recent(times, cutoff), times)
  {
    forall c ensures |Recent(Recent(times, cutoff), c)| <= |Recent(times, c)| {
      if c >= cutoff {
        RecentTwice(times, cutoff, c);
      } else {
        RecentShrinks(times, c, cutoff);
        RecentShrinks(Recent(times, cutoff), c, c);
      }
    }
  }

  lemma DominatedTransitive(a: Log, b: Log, c: Log)
    requires Dominated(a, b) && Dominated(b, c)
    ensures Dominated(a, c)
  {
    forall x ensures |Recent(a, x)| <= |Recent(c, x)| {
      assert |Recent(a, x)| <= |Recent(b, x)|;
    }
  }

  lemma DominatedAppend(a: Log, b: Log, x: Log)
    requires Dominated(a, b)
    ensures Dominated(a + x, b + x)
  {
    forall c ensures |Recent(a + x, c)| <= |Recent(b + x, c)| {
      assert |Recent(a, c)| <= |Recent(b, c)|;
      RecentConcat(a, x, c);
      RecentConcat(b, x, c);
    }
  }

  lemma WorkedIsDominated(p: Params, s: State, op: Op, k: Key)
    requires Dominated(LogOf(s.kept, k), LogOf(s.seen, k))
    ensures Dominated(LogOf(Worked(p, s.kept, op), k), LogOf(Remembered(s.seen, op), k))
  {
    var cutoff := PruneTime(op) - p.window;
    WorkedLog(p, s.kept, op, k);
    RememberedLog(s.seen, op, k);
    PrunedIsDominated(LogOf(s.kept, k), cutoff);
    DominatedTransitive(Recent(LogOf(s.kept, k), cutoff), LogOf(s.kept, k), LogOf(s.seen, k));
    DominatedAppend(Recent(LogOf(s.kept, k), cutoff), LogOf(s.seen, k), Fresh(op));
  }

  lemma SweptIsDominated(p: Params, m: Logs, m': Logs, protect: Key, cutoff: int, k: Key)
    requires Swept(p, m, m', protect, cutoff)
    ensures Dominated(LogOf(m', k), LogOf(m, k))
  {
    hide Recent, Dominated;
    PrunedIsDominated(LogOf(m, k), cutoff);
    EmptyIsDominated(LogOf(m, k));
    DominatedReflexive(LogOf(m, k));
    hide *;
    SweptKeepsOrCuts(p, m, m', protect, cutoff, k);
  }

  lemma SweptKeepsOrCuts(p: Params, m: Logs, m': Logs, protect: Key, cutoff: int, k: Key)
    requires Swept(p, m, m', protect, cutoff)
    ensures || LogOf(m', k) == LogOf(m, k)
            || LogOf(m', k) == Recent(LogOf(m, k), cutoff)
            || LogOf(m', k) == []
  {
    RecentOfNone(cutoff);
    hide Recent;
  }

  lemma RecentOfNone(c: int)
    ensures Recent([], c) == []
  {
  }

  lemma EmptyIsDominated(times: Log)
    ensures Dominated([], times)
  {
    forall c ensures |Recent([], c)| <= |Recent(times, c)| {
      RecentOfNone(c);
    }
  }

  lemma DominatedReflexive(times: Log)
    ensures Dominated(times, times)
  {
  }

  /** After any call the map is within capacity and holds no empty log. */
  lemma StepKeepsSize(p: Params, s: State, e: Event)
    requires Inv(p, s) && Step(p, s, e)
    ensures |e.after.kept| <= p.capacity && forall k :: k in e.after.kept ==> e.after.kept[k] != []
  {
    var m := Worked(p, s.kept, e.op);
    if e.op.Reset? {
      assert |m| == |m.Keys| && |s.kept| == |s.kept.Keys|;
      SubsetSize(m.Keys, s.kept.Keys);
    }
  }

  lemma StepKeepsDominated(p: Params, s: State, e: Event, k: Key)
    requires Step(p, s, e) && Dominated(LogOf(s.kept, k), LogOf(s.seen, k))
    ensures Dominated(LogOf(e.after.kept, k), LogOf(e.after.seen, k))
  {
    var m := Worked(p, s.kept, e.op);
    WorkedIsDominated(p, s, e.op, k);
    if !e.op.Reset? {
      SweptIsDominated(p, m, e.after.kept, e.op.key, e.after.clock - p.window, k);
      DominatedTransitive(LogOf(e.after.kept, k), LogOf(m, k), LogOf(e.after.seen, k));
    }
  }

  lemma StepKeepsInv(p: Params, s: State, e: Event)
    requires Inv(p, s) && Step(p, s, e)
    ensures Inv(p, e.after)
  {
    StepKeepsSize(p, s, e);
    forall k ensures Dominated(LogOf(e.after.kept, k), LogOf(e.after.seen, k)) {
      assert Dominated(LogOf(s.kept, k), LogOf(s.seen, k));
      StepKeepsDominated(p, s, e, k);
    }
  }

  /** What holds of the map a call sweeps. */
  lemma StepSweeps(p: Params, s: State, e: Event)
    requires Inv(p, s) && Step(p, s, e) && !e.op.Reset?
    ensures Swept(p, Worked(p, s.kept, e.op), e.after.kept, e.op.key, e.after.clock - p.window)
    ensures |Worked(p, s.kept, e.op)| <= p.capacity + 1
    ensures e.op.Check? ==> |Worked(p, s.kept, e.op)| <= p.capacity
  {
    StepMeans(p, s, e);
    hide Recent, Swept, Step;
    var m := Worked(p, s.kept, e.op);
    WorkedLog(p, s.kept, e.op, e.op.key);
    hide Worked;
    assert |m| == |m.Keys| && |s.kept| == |s.kept.Keys|;
    SubsetSize(m.Keys, s.kept.Keys + {e.op.key});
    if e.op.Check? {
      SubsetSize(m.Keys, s.kept.Keys);
    }
  }

  lemma InvDominates(p: Params, s: State, k: Key)
    requires Inv(p, s)
    ensures Dominated(LogOf(s.kept, k), LogOf(s.seen, k))
  {
    hide Recent;
  }

  // ---------------------------------------------------------------- soundness

  /** The reference's verdict: enough failures inside the window that ends at `now`. */
  predicate Deserved(p: Params, seen: Logs, key: Key, now: int) {
    |Recent(LogOf(seen, key), now - p.window)| >= p.maxFailures
  }

  /** A check never sweeps, for the map is within capacity already. */
  lemma CheckAnswer(p: Params, s: State, e: Event)
    requires Inv(p, s) && Step(p, s, e) && e.op.Check?
    ensures e.answer == (|Recent(LogOf(s.kept, e.op.key), e.op.pruneAt - p.window)| >= p.maxFailures)
    ensures e.after.kept == Worked(p, s.kept, e.op) && e.after.seen == s.seen
  {
    StepSweeps(p, s, e);
    hide Recent;
    WorkedLog(p, s.kept, e.op, e.op.key);
  }

  lemma CheckIsDeserved(p: Params, s: State, e: Event)
    requires Inv(p, s) && Step(p, s, e) && e.op.Check? && e.answer
    ensures Deserved(p, e.after.seen, e.op.key, e.op.pruneAt)
  {
    CheckAnswer(p, s, e);
    InvDominates(p, s, e.op.key);
    hide Recent, Inv, Step, Worked;
    assert Dominated(LogOf(s.kept, e.op.key), LogOf(s.seen, e.op.key));
  }

  /** Soundness of every run: whenever a key is reported blocked, the reference would block it. */
  lemma {:induction false} BlockedIsDeserved(p: Params, s: State, events: seq<Event>, i: nat)
    requires Inv(p, s) && Runs(p, s, events) && i < |events|
    requires events[i].op.Check? && events[i].answer
    ensures Deserved(p, events[i].after.seen, events[i].op.key, events[i].op.pruneAt)
    decreases i
  {
    hide Inv, Step, Recent, Deserved;
    var e := events[0];
    if i == 0 {
      CheckIsDeserved(p, s, e);
    } else {
      StepKeepsInv(p, s, e);
      BlockedIsDeserved(p, e.after, events[1..], i - 1);
    }
  }

  // ---------------------------------------------------------------- exactness

  /** Inside the current window the limiter remembers exactly what the reference does. */
  ghost predicate Exact(p: Params, s: State) {
    forall k, c :: c >= s.clock - p.window ==> Recent(LogOf(s.kept, k), c) == Recent(LogOf(s.seen, k), c)
  }

  function LiveKeys(p: Params, s: State): set<Key> {
    set k | k in s.seen && Recent(s.seen[k], s.clock - p.window) != []
  }

  /** At most `capacity` keys have an unexpired failure: something a caller can count. */
  predicate Uncrowded(p: Params, s: State) {
    |LiveKeys(p, s)| <= p.capacity
  }

  lemma ExactIsUncrowded(p: Params, s: State)
    requires Inv(p, s) && Exact(p, s)
    ensures Uncrowded(p, s)
  {
    RecentOfNone(s.clock - p.window);
    hide Recent;
    forall k | k in LiveKeys(p, s)
      ensures k in s.kept
    {
      assert Recent(LogOf(s.kept, k), s.clock - p.window) == Recent(LogOf(s.seen, k), s.clock - p.window);
    }
    SubsetSize(LiveKeys(p, s), s.kept.Keys);
  }

  /** What a call leaves of each key's window before it sweeps. */
  lemma WorkedIsExact(p: Params, s: State, op: Op, now: int, k: Key, c: int)
    requires Exact(p, s) && Timely(s.clock, op, now) && c >= now - p.window
    ensures Recent(LogOf(Worked(p, s.kept, op), k), c) == Recent(LogOf(Remembered(s.seen, op), k), c)
  {
    WorkedLog(p, s.kept, op, k);
    RememberedLog(s.seen, op, k);
    assert Recent(LogOf(s.kept, k), c) == Recent(LogOf(s.seen, k), c);
    if k == op.key && !op.Reset? {
      RecentTwice(LogOf(s.kept, k), op.pruneAt - p.window, c);
      RecentConcat(Recent(LogOf(s.kept, k), op.pruneAt - p.window), Fresh(op), c);
      RecentConcat(LogOf(s.seen, k), Fresh(op), c);
    }
  }

  /** A sweep whose unexpired keys are all among at most `capacity` live ones evicts nothing. */
  lemma FewEvictNone(p: Params, m: Logs, m': Logs, protect: Key, cutoff: int, live: set<Key>, k: Key)
    requires Swept(p, m, m', protect, cutoff)
    requires Unexpired(m, cutoff).Keys <= live && |live| <= p.capacity
    ensures !Evicted(p, m, m', cutoff, k)
  {
    hide Recent;
    if |m| > p.capacity {
      var u := Unexpired(m, cutoff);
      hide Unexpired;
      assert |u| == |u.Keys| && |m'| == |m'.Keys|;
      SubsetSize(u.Keys, live);
      SubsetSize(m'.Keys, u.Keys);
    }
  }

  lemma UnexpiredIsLive(p: Params, m: Logs, s: State, j: Key)
    requires j in Unexpired(m, s.clock - p.window)
    requires Recent(LogOf(m, j), s.clock - p.window) == Recent(LogOf(s.seen, j), s.clock - p.window)
    ensures j in LiveKeys(p, s)
  {
    RecentOfNone(s.clock - p.window);
    hide Recent;
  }

  lemma LiveAfterAt(p: Params, s: State, e: Event, j: Key)
    requires Exact(p, s) && Step(p, s, e)
    requires j in Unexpired(Worked(p, s.kept, e.op), e.after.clock - p.window)
    ensures j in LiveKeys(p, e.after)
  {
    hide *;
    StepMeans(p, s, e);
    WorkedIsExact(p, s, e.op, e.after.clock, j, e.after.clock - p.window);
    UnexpiredIsLive(p, Worked(p, s.kept, e.op), e.after, j);
  }

  lemma LiveAfter(p: Params, s: State, e: Event)
    requires Exact(p, s) && Step(p, s, e)
    ensures Unexpired(Worked(p, s.kept, e.op), e.after.clock - p.window).Keys <= LiveKeys(p, e.after)
  {
    hide *;
    forall j | j in Unexpired(Worked(p, s.kept, e.op), e.after.clock - p.window).Keys
      ensures j in LiveKeys(p, e.after)
    {
      LiveAfterAt(p, s, e, j);
    }
  }

  lemma StepKeepsExact(p: Params, s: State, e: Event)
    requires Exact(p, s) && Step(p, s, e) && Uncrowded(p, e.after)
    ensures Exact(p, e.after)
  {
    var m, t := Worked(p, s.kept, e.op), e.after;
    forall k, c | c >= t.clock - p.window
      ensures Recent(LogOf(t.kept, k), c) == Recent(LogOf(t.seen, k), c)
    {
      StepMeans(p, s, e);
      WorkedIsExact(p, s, e.op, t.clock, k, c);
      if !e.op.Reset? {
        LiveAfter(p, s, e);
        hide *;
        KeptAfter(p, s, e, k, c);
      }
    }
  }

  lemma KeptAfter(p: Params, s: State, e: Event, k: Key, c: int)
    requires var m, cutoff := Worked(p, s.kept, e.op), e.after.clock - p.window;
             && Swept(p, m, e.after.kept, e.op.key, cutoff) && c >= cutoff
             && Unexpired(m, cutoff).Keys <= LiveKeys(p, e.after)
    requires Uncrowded(p, e.after)
    requires Recent(LogOf(Worked(p, s.kept, e.op), k), c) == Recent(LogOf(e.after.seen, k), c)
    ensures Recent(LogOf(e.after.kept, k), c) == Recent(LogOf(e.after.seen, k), c)
  {
    hide Swept, Worked, Recent, Unexpired, Evicted;
    var m, t := Worked(p, s.kept, e.op), e.after;
    FewEvictNone(p, m, t.kept, e.op.key, t.clock - p.window, LiveKeys(p, t), k);
    SweptLog(p, m, t.kept, e.op.key, t.clock - p.window, k, c);
  }

  /**
    * Exactness of every run: the limiter remembers exactly the reference's window after every
    * call if and only if no more than `capacity` keys ever have an unexpired failure at once.
    */
  lemma {:induction false} ExactIffUncrowded(p: Params, s: State, events: seq<Event>)
    requires Inv(p, s) && Exact(p, s) && Runs(p, s, events)
    ensures (forall e :: e in events ==> Exact(p, e.after)) <==> (forall e :: e in events ==> Uncrowded(p, e.after))
    decreases |events|
  {
    hide Inv, Step, Exact, Uncrowded;
    if events != [] {
      var e := events[0];
      StepKeepsInv(p, s, e);
      if Uncrowded(p, e.after) {
        StepKeepsExact(p, s, e);
        ExactIffUncrowded(p, e.after, events[1..]);
        assert forall x :: x in events <==> x == e || x in events[1..];
      } else if Exact(p, e.after) {
        ExactIsUncrowded(p, e.after);
      }
    }
  }

  /** While the memory is exact, so is every answer. */
  lemma ExactAnswers(p: Params, s: State, e: Event)
    requires Inv(p, s) && Exact(p, s) && Step(p, s, e) && e.op.Check?
    ensures e.answer <==> Deserved(p, s.seen, e.op.key, e.op.pruneAt)
  {
    CheckAnswer(p, s, e);
    StepMeans(p, s, e);
    hide Recent, Inv, Step, Worked;
  }

  lemma InitIsExact(p: Params)
    ensures Inv(p, Init()) && Exact(p, Init())
  {
  }

  // ---------------------------------------------------------------- eviction

  /** A sweep over capacity by one loses at most one unexpired key, and not the protected one. */
  lemma EvictsOne(p: Params, keys: set<Key>, u: Logs, m': Logs, protect: Key)
    requires Evicts(p, u, m', protect) && u.Keys <= keys && |keys| <= p.capacity + 1
    ensures m'.Keys <= u.Keys && |u.Keys - m'.Keys| <= 1
    ensures p.capacity >= 1 && protect in u ==> protect in m'
  {
    hide OnlyCheap, AllSpared;
    SubsetSize(u.Keys, keys);
    assert |u| == |u.Keys| && |m'| == |m'.Keys|;
    assert u.Keys == m'.Keys + (u.Keys - m'.Keys);
  }

  lemma SweepLosesOne(p: Params, m: Logs, m': Logs, protect: Key, cutoff: int)
    requires Swept(p, m, m', protect, cutoff) && p.capacity < |m| <= p.capacity + 1
    ensures m'.Keys <= Unexpired(m, cutoff).Keys && |Unexpired(m, cutoff).Keys - m'.Keys| <= 1
    ensures p.capacity >= 1 && protect in Unexpired(m, cutoff) ==> protect in m'
  {
    UnexpiredKeys(m, cutoff);
    assert |m| == |m.Keys|;
    hide Evicts, Unexpired;
    EvictsOne(p, m.Keys, Unexpired(m, cutoff), m', protect);
  }

  lemma UnexpiredKeys(m: Logs, cutoff: int)
    ensures Unexpired(m, cutoff).Keys <= m.Keys
  {
    hide Recent;
  }

  lemma AtMostOne(s: set<Key>, j: Key, k: Key)
    requires |s| <= 1 && j in s && k in s
    ensures j == k
  {
    SubsetSize({j, k}, s);
  }

  lemma SweepEvictsOne(p: Params, m: Logs, m': Logs, protect: Key, cutoff: int, j: Key, k: Key)
    requires Swept(p, m, m', protect, cutoff) && |m| <= p.capacity + 1
    requires Evicted(p, m, m', cutoff, j) && Evicted(p, m, m', cutoff, k)
    ensures j == k && (p.capacity >= 1 ==> j != protect)
  {
    hide Recent, Unexpired, Swept;
    SweepLosesOne(p, m, m', protect, cutoff);
    AtMostOne(Unexpired(m, cutoff).Keys - m'.Keys, j, k);
  }

  lemma BlockedGoesLast(p: Params, m: Logs, m': Logs, protect: Key, cutoff: int, k: Key, j: Key)
    requires Swept(p, m, m', protect, cutoff) && |m| <= p.capacity + 1
    requires Evicted(p, m, m', cutoff, k) && Blocked(p, Unexpired(m, cutoff), k)
    requires j in Unexpired(m, cutoff) && j != protect
    ensures Blocked(p, Unexpired(m, cutoff), j)
  {
    hide Recent, Unexpired;
    var u := Unexpired(m, cutoff);
    assert Spared(p, u, protect, k);
    if j !in m' {
      SweepEvictsOne(p, m, m', protect, cutoff, j, k);
    } else {
      assert AllSpared(p, u, m', protect);
      assert Spared(p, u, protect, j);
    }
  }

  /**
    * The eviction discipline: at most one unexpired key is evicted; never the key being
    * checked or recorded, given any capacity at all; and a blocked key only if every other
    * unprotected key is blocked.
    */
  ghost predicate Disciplined(p: Params, m: Logs, m': Logs, protect: Key, cutoff: int) {
    && (forall j, k :: Evicted(p, m, m', cutoff, j) && Evicted(p, m, m', cutoff, k) ==> j == k)
    && (p.capacity >= 1 ==> !Evicted(p, m, m', cutoff, protect))
    && (forall k :: Evicted(p, m, m', cutoff, k) && Blocked(p, Unexpired(m, cutoff), k) ==>
          forall j :: j in Unexpired(m, cutoff) && j != protect ==> Blocked(p, Unexpired(m, cutoff), j))
  }

  lemma SweepIsDisciplined(p: Params, m: Logs, m': Logs, protect: Key, cutoff: int)
    requires Swept(p, m, m', protect, cutoff) && |m| <= p.capacity + 1
    ensures Disciplined(p, m, m', protect, cutoff)
  {
    hide Recent, Unexpired, Swept, Blocked, Evicted;
    forall j, k | Evicted(p, m, m', cutoff, j) && Evicted(p, m, m', cutoff, k)
      ensures j == k && (p.capacity >= 1 ==> j != protect)
    {
      SweepEvictsOne(p, m, m', protect, cutoff, j, k);
    }
    forall j, k | Evicted(p, m, m', cutoff, k) && Blocked(p, Unexpired(m, cutoff), k)
                  && j in Unexpired(m, cutoff) && j != protect
      ensures Blocked(p, Unexpired(m, cutoff), j)
    {
      BlockedGoesLast(p, m, m', protect, cutoff, k, j);
    }
  }

  /** Every call leaves the map within capacity and keeps the eviction discipline. */
  lemma EvictionDiscipline(p: Params, s: State, e: Event)
    requires Inv(p, s) && Step(p, s, e)
    ensures |e.after.kept| <= p.capacity
    ensures !e.op.Reset? ==>
              Disciplined(p, Worked(p, s.kept, e.op), e.after.kept, e.op.key, e.after.clock - p.window)
  {
    StepKeepsSize(p, s, e);
    if !e.op.Reset? {
      StepSweeps(p, s, e);
      hide *;
      SweepIsDisciplined(p, Worked(p, s.kept, e.op), e.after.kept, e.op.key, e.after.clock - p.window);
    }
  }

  // ---------------------------------------------------------------- blocks cannot be flushed

  /** The keys the reference would block now. */
  function DeservingKeys(p: Params, s: State): set<Key> {
    set k | k in s.seen && Deserved(p, s.seen, k, s.clock)
  }

  /** The keys the limiter holds blocked now. */
  function HeldBlocked(p: Params, s: State): set<Key> {
    set k | k in s.kept && |Recent(s.kept[k], s.clock - p.window)| >= p.maxFailures
  }

  /** The limiter holds fewer than `capacity` keys blocked at once: something it can count itself. */
  predicate Calm(p: Params, s: State) {
    |HeldBlocked(p, s)| < p.capacity
  }

  /**
    * Every key held blocked deserves it, so a run in which few keys ever deserve a block is
    * calm; the converse fails under a flood of keys that are evicted before they are blocked.
    */
  lemma HeldAreDeserving(p: Params, s: State)
    requires Inv(p, s) && p.maxFailures >= 1
    ensures HeldBlocked(p, s) <= DeservingKeys(p, s)
    ensures |DeservingKeys(p, s)| < p.capacity ==> Calm(p, s)
  {
    RecentOfNone(s.clock - p.window);
    forall k | k in HeldBlocked(p, s)
      ensures k in DeservingKeys(p, s)
    {
      hide Recent;
      InvDominates(p, s, k);
      assert |Recent(LogOf(s.kept, k), s.clock - p.window)| <= |Recent(LogOf(s.seen, k), s.clock - p.window)|;
    }
    SubsetSize(HeldBlocked(p, s), DeservingKeys(p, s));
  }

  /** A sweep that evicts a key leaves `capacity` keys besides it. */
  lemma EvictingLeavesMany(p: Params, m: Logs, m': Logs, protect: Key, cutoff: int, k: Key)
    requires Swept(p, m, m', protect, cutoff) && Evicted(p, m, m', cutoff, k)
    ensures |Unexpired(m, cutoff).Keys - {protect}| >= p.capacity
  {
    hide Recent, Unexpired, OnlyCheap, AllSpared;
    var u := Unexpired(m, cutoff);
    assert |u| == |u.Keys| && |m'| == |m'.Keys| && |m'.Keys + {k}| == |m'.Keys| + 1;
    SubsetSize(m'.Keys + {k}, u.Keys);
    assert |u.Keys - {protect}| >= |u.Keys| - 1;
  }

  /** If losing `k` would need every other key to be among too few blocked ones, `k` stays. */
  lemma TooFewToEvict(p: Params, m: Logs, m': Logs, protect: Key, cutoff: int, k: Key, blocked: set<Key>)
    requires Swept(p, m, m', protect, cutoff) && |m| <= p.capacity + 1 && |blocked| < p.capacity
    requires Blocked(p, Unexpired(m, cutoff), k)
    requires forall j :: j in Unexpired(m, cutoff) && j != protect && Blocked(p, Unexpired(m, cutoff), j) ==> j in blocked
    ensures !Evicted(p, m, m', cutoff, k)
  {
    hide Recent, Unexpired, Blocked, Swept, Evicted;
    if Evicted(p, m, m', cutoff, k) {
      EvictingLeavesMany(p, m, m', protect, cutoff, k);
      forall j | j in Unexpired(m, cutoff).Keys - {protect}
        ensures j in blocked
      {
        BlockedGoesLast(p, m, m', protect, cutoff, k, j);
      }
      SubsetSize(Unexpired(m, cutoff).Keys - {protect}, blocked);
    }
  }

  /** A key the sweep finds blocked, other than the call's own, was held blocked before the call. */
  lemma SweptBlockedWasHeld(p: Params, s: State, op: Op, now: int, j: Key)
    requires Timely(s.clock, op, now) && j != op.key
    requires var u := Unexpired(Worked(p, s.kept, op), now - p.window); j in u && Blocked(p, u, j)
    ensures j in HeldBlocked(p, s)
  {
    WorkedLog(p, s.kept, op, j);
    RecentShrinks(LogOf(s.kept, j), s.clock - p.window, now - p.window);
    RecentOfNone(now - p.window);
    hide Recent, Worked;
  }

  /** After a calm state a blocked key is not the one evicted. */
  lemma CalmSpares(p: Params, s: State, e: Event, k: Key)
    requires Inv(p, s) && Step(p, s, e) && !e.op.Reset? && Calm(p, s)
    requires Blocked(p, Unexpired(Worked(p, s.kept, e.op), e.after.clock - p.window), k)
    ensures !Evicted(p, Worked(p, s.kept, e.op), e.after.kept, e.after.clock - p.window, k)
  {
    hide *;
    StepMeans(p, s, e);
    StepSweeps(p, s, e);
    CalmIsFew(p, s);
    var m, cutoff := Worked(p, s.kept, e.op), e.after.clock - p.window;
    forall j | j in Unexpired(m, cutoff) && j != e.op.key && Blocked(p, Unexpired(m, cutoff), j)
      ensures j in HeldBlocked(p, s)
    {
      SweptBlockedWasHeld(p, s, e.op, e.after.clock, j);
    }
    TooFewToEvict(p, m, e.after.kept, e.op.key, cutoff, k, HeldBlocked(p, s));
  }

  lemma CalmIsFew(p: Params, s: State)
    requires Calm(p, s)
    ensures |HeldBlocked(p, s)| < p.capacity
  {
    hide HeldBlocked;
  }

  /** As long as enough of `evidence` is in the window, the limiter holds as much for the key. */
  ghost predicate Covers(p: Params, s: State, key: Key, evidence: Log) {
    forall c :: c >= s.clock - p.window ==> CoversAt(p, s.kept, key, evidence, c)
  }

  predicate CoversAt(p: Params, m: Logs, key: Key, evidence: Log, c: int) {
    |Recent(evidence, c)| >= p.maxFailures ==> |Recent(LogOf(m, key), c)| >= |Recent(evidence, c)|
  }

  lemma WorkedCovers(p: Params, m: Logs, op: Op, key: Key, evidence: Log, c: int)
    requires CoversAt(p, m, key, evidence, c) && (op.Reset? ==> op.key != key)
    requires op.Reset? || c >= op.pruneAt - p.window
    ensures CoversAt(p, Worked(p, m, op), key, evidence, c)
  {
    WorkedLog(p, m, op, key);
    hide Worked;
    if !op.Reset? {
      RecentTwice(LogOf(m, key), op.pruneAt - p.window, c);
      RecentConcat(Recent(LogOf(m, key), op.pruneAt - p.window), Fresh(op), c);
    }
  }

  /** A key with enough evidence in the window at the sweep is one the sweep finds blocked. */
  lemma EvidenceBlocks(p: Params, m: Logs, key: Key, evidence: Log, cutoff: int, c: int)
    requires c >= cutoff && CoversAt(p, m, key, evidence, c) && |Recent(evidence, c)| >= p.maxFailures
    requires key in Unexpired(m, cutoff)
    ensures Blocked(p, Unexpired(m, cutoff), key)
  {
    RecentShrinks(LogOf(m, key), cutoff, c);
    hide Recent;
  }

  /** A sweep that does not evict a well-evidenced key still covers its evidence. */
  lemma SweptCovers(p: Params, m: Logs, m': Logs, protect: Key, cutoff: int, key: Key, evidence: Log, c: int)
    requires Swept(p, m, m', protect, cutoff) && c >= cutoff && CoversAt(p, m, key, evidence, c)
    requires Blocked(p, Unexpired(m, cutoff), key) ==> !Evicted(p, m, m', cutoff, key)
    ensures CoversAt(p, m', key, evidence, c)
  {
    hide Recent, Swept, Blocked, Unexpired;
    if |Recent(evidence, c)| >= p.maxFailures {
      SweptLog(p, m, m', protect, cutoff, key, c);
      if Evicted(p, m, m', cutoff, key) {
        EvidenceBlocks(p, m, key, evidence, cutoff, c);
      }
    }
  }

  lemma StepCoversAt(p: Params, s: State, e: Event, key: Key, evidence: Log, c: int)
    requires Inv(p, s) && Step(p, s, e) && Calm(p, s) && c >= e.after.clock - p.window
    requires CoversAt(p, Worked(p, s.kept, e.op), key, evidence, c)
    ensures CoversAt(p, e.after.kept, key, evidence, c)
  {
    hide *;
    StepMeans(p, s, e);
    if !e.op.Reset? {
      var m, cutoff := Worked(p, s.kept, e.op), e.after.clock - p.window;
      if Blocked(p, Unexpired(m, cutoff), key) {
        CalmSpares(p, s, e, key);
      }
      SweptCovers(p, m, e.after.kept, e.op.key, cutoff, key, evidence, c);
    }
  }

  lemma StepKeepsCover(p: Params, s: State, e: Event, key: Key, evidence: Log)
    requires Inv(p, s) && Step(p, s, e) && Calm(p, s) && Covers(p, s, key, evidence)
    requires !(e.op.Reset? && e.op.key == key)
    ensures Covers(p, e.after, key, evidence)
  {
    StepMeans(p, s, e);
    hide Recent, Step, Inv, Worked, Remembered, Calm, Swept, CoversAt;
    forall c | c >= e.after.clock - p.window
      ensures CoversAt(p, e.after.kept, key, evidence, c)
    {
      WorkedCovers(p, s.kept, e.op, key, evidence, c);
      StepCoversAt(p, s, e, key, evidence, c);
    }
  }

  /** After every call the limiter is calm, and no call resets the key. */
  ghost predicate Quiet(p: Params, events: seq<Event>, key: Key) {
    forall e :: e in events ==> Calm(p, e.after) && !(e.op.Reset? && e.op.key == key)
  }

  lemma CoveredIsBlocked(p: Params, s: State, e: Event, evidence: Log)
    requires Inv(p, s) && Step(p, s, e) && e.op.Check? && Covers(p, s, e.op.key, evidence)
    requires |Recent(evidence, e.op.pruneAt - p.window)| >= p.maxFailures
    ensures e.answer
  {
    CheckAnswer(p, s, e);
    StepMeans(p, s, e);
    hide Recent, Step, Inv, Worked, Remembered, Swept;
    assert CoversAt(p, s.kept, e.op.key, evidence, e.op.pruneAt - p.window);
  }

  lemma {:induction false} CoveredStaysBlocked(p: Params, s: State, events: seq<Event>, key: Key, evidence: Log, i: nat)
    requires Inv(p, s) && Runs(p, s, events) && Calm(p, s) && Quiet(p, events, key) && Covers(p, s, key, evidence)
    requires i < |events| && events[i].op.Check? && events[i].op.key == key
    requires |Recent(evidence, events[i].op.pruneAt - p.window)| >= p.maxFailures
    ensures events[i].answer
    decreases i
  {
    hide Recent, Step, Inv, Covers, Calm;
    var e := events[0];
    assert e in events;
    if i == 0 {
      CoveredIsBlocked(p, s, e, evidence);
    } else {
      StepKeepsInv(p, s, e);
      StepKeepsCover(p, s, e, key, evidence);
      assert forall x :: x in events[1..] ==> x in events;
      CoveredStaysBlocked(p, e.after, events[1..], key, evidence, i - 1);
    }
  }

  lemma CoversItself(p: Params, s: State, key: Key)
    ensures Covers(p, s, key, LogOf(s.kept, key))
  {
    hide Recent;
  }

  /**
    * A block cannot be flushed: once a check reports a key blocked, on the failures it then
    * holds, every later check of that key says the same while enough of those failures are
    * inside the window, whatever is recorded, checked or reset for other keys, unless the
    * key itself is reset or the limiter comes to hold as many keys blocked as its capacity.
    */
  lemma BlockedStaysBlocked(p: Params, s: State, events: seq<Event>, i: nat)
    requires Inv(p, s) && Runs(p, s, events) && 0 < i < |events|
    requires events[0].op.Check? && events[0].answer
    requires events[i].op.Check? && events[i].op.key == events[0].op.key
    requires Quiet(p, events, events[0].op.key)
    requires |Recent(LogOf(events[0].after.kept, events[0].op.key), events[i].op.pruneAt - p.window)| >= p.maxFailures
    ensures events[i].answer
  {
    hide Recent, Step, Inv, Covers, Calm;
    var e := events[0];
    assert e in events;
    StepKeepsInv(p, s, e);
    CoversItself(p, e.after, e.op.key);
    assert forall x :: x in events[1..] ==> x in events;
    CoveredStaysBlocked(p, e.after, events[1..], e.op.key, LogOf(e.after.kept, e.op.key), i - 1);
  }
}
