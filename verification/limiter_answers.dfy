/**
  * What the failure limiter answers, in terms of the calls made of it alone: which failures of
  * a key count is read off the run, not off anything the limiter or the reference remembers.
  */
module LimiterAnswers {
  import opened SlidingWindow
  import opened LimiterRuns

  /** The key is reset by one of the calls from the `j`th up to the `n`th. */
  predicate ResetSince(events: seq<Event>, key: Key, j: nat, n: nat) {
    exists i :: j <= i < n && i < |events| && events[i].op == Reset(key)
  }

  /** The `j`th call records a failure of the key after `cutoff` that no later reset forgives. */
  predicate Counts(events: seq<Event>, key: Key, cutoff: int, j: nat, n: nat) {
    && j < n && j < |events|
    && events[j].op.Fail? && events[j].op.key == key && events[j].op.recordAt > cutoff
    && !ResetSince(events, key, j, n)
  }

  /** The failures of the key, among the first `n` calls, that count in the window after `cutoff`. */
  function Failures(events: seq<Event>, key: Key, cutoff: int, n: nat): set<nat> {
    set j: nat | 0 <= j < n && Counts(events, key, cutoff, j, n)
  }

  /** The keys with a failure that counts. */
  function Live(events: seq<Event>, cutoff: int, n: nat): set<Key> {
    set j: nat | 0 <= j < n && j < |events| && Counts(events, events[j].op.key, cutoff, j, n) :: events[j].op.key
  }

  /** The state before the `n`th call. */
  function Before(events: seq<Event>, n: nat): State
    requires n <= |events|
  {
    if n == 0 then Init() else events[n - 1].after
  }

  // ---------------------------------------------------------------- runs, call by call

  lemma {:induction false} RunSteps(p: Params, s: State, events: seq<Event>, n: nat)
    requires Runs(p, s, events) && n < |events|
    ensures Step(p, if n == 0 then s else events[n - 1].after, events[n])
    decreases n
  {
    hide Step;
    if n > 0 {
      RunSteps(p, events[0].after, events[1..], n - 1);
    }
  }

  /** Everything the run invariants need, at any point of a run of a new limiter. */
  lemma {:induction false} RunHolds(p: Params, events: seq<Event>, n: nat)
    requires Runs(p, Init(), events) && n <= |events|
    ensures Inv(p, Before(events, n)) && (n < |events| ==> Step(p, Before(events, n), events[n]))
    decreases n
  {
    InitIsExact(p);
    hide Step, Inv;
    if n < |events| {
      RunSteps(p, Init(), events, n);
    }
    if n > 0 {
      RunHolds(p, events, n - 1);
      StepKeepsInv(p, Before(events, n - 1), events[n - 1]);
    }
  }

  // ---------------------------------------------------------------- counting

  lemma CountsOneMore(events: seq<Event>, key: Key, cutoff: int, j: nat, n: nat)
    requires n < |events|
    ensures Counts(events, key, cutoff, j, n + 1) <==>
            || (Counts(events, key, cutoff, j, n) && events[n].op != Reset(key))
            || (j == n && events[n].op.Fail? && events[n].op.key == key && events[n].op.recordAt > cutoff)
  {
    if j < n {
      assert ResetSince(events, key, j, n + 1) <==> ResetSince(events, key, j, n) || events[n].op == Reset(key);
    }
  }

  /** What one more call does to the failures that count. */
  lemma FailuresOneMore(events: seq<Event>, key: Key, cutoff: int, n: nat)
    requires n < |events|
    ensures var op, was, now := events[n].op, Failures(events, key, cutoff, n), Failures(events, key, cutoff, n + 1);
            && (op == Reset(key) ==> now == {})
            && (op != Reset(key) ==>
                  now == was + if op.Fail? && op.key == key && op.recordAt > cutoff then {n} else {})
            && n !in was
  {
    var op, was, now := events[n].op, Failures(events, key, cutoff, n), Failures(events, key, cutoff, n + 1);
    CountsBefore(events, key, cutoff, n);
    CountsBefore(events, key, cutoff, n + 1);
    hide Counts;
    forall j: nat
      ensures j in now <==>
              (j in was && op != Reset(key)) || (j == n && op.Fail? && op.key == key && op.recordAt > cutoff)
    {
      CountsOneMore(events, key, cutoff, j, n);
    }
  }

  lemma CountsBefore(events: seq<Event>, key: Key, cutoff: int, n: nat)
    ensures forall j: nat :: Counts(events, key, cutoff, j, n) ==> j < n
  {
  }

  lemma RecentAppend(times: Log, t: int, cutoff: int)
    ensures |Recent(times + [t], cutoff)| == |Recent(times, cutoff)| + if t > cutoff then 1 else 0
  {
    assert (times + [t])[..|times|] == times;
  }

  /** What one call does to the reference's window. */
  lemma SeenOneMore(p: Params, s: State, e: Event, key: Key, cutoff: int)
    requires Step(p, s, e)
    ensures |Recent(LogOf(e.after.seen, key), cutoff)| ==
              if e.op == Reset(key) then 0
              else |Recent(LogOf(s.seen, key), cutoff)|
                   + if e.op.Fail? && e.op.key == key && e.op.recordAt > cutoff then 1 else 0
  {
    StepMeans(p, s, e);
    RememberedLog(s.seen, e.op, key);
    NothingRecent(cutoff);
    if e.op.Fail? {
      RecentAppend(LogOf(s.seen, key), e.op.recordAt, cutoff);
    }
    hide Step, Recent, Remembered, Worked, Swept;
    assert LogOf(s.seen, key) + [] == LogOf(s.seen, key);
  }

  lemma NothingYet(events: seq<Event>, key: Key, cutoff: int)
    ensures |Failures(events, key, cutoff, 0)| == |Recent(LogOf(Before(events, 0).seen, key), cutoff)| == 0
  {
    NothingRecent(cutoff);
    assert Failures(events, key, cutoff, 0) == {};
  }

  lemma BeforeNext(events: seq<Event>, n: nat)
    requires 1 <= n <= |events|
    ensures Before(events, n) == events[n - 1].after
  {
  }

  /** The reference's window is as long as there are failures that count. */
  lemma {:induction false} SeenCounts(p: Params, events: seq<Event>, key: Key, cutoff: int, n: nat)
    requires Runs(p, Init(), events) && n <= |events|
    ensures |Recent(LogOf(Before(events, n).seen, key), cutoff)| == |Failures(events, key, cutoff, n)|
    decreases n
  {
    hide *;
    if n == 0 {
      NothingYet(events, key, cutoff);
    } else {
      SeenCounts(p, events, key, cutoff, n - 1);
      RunHolds(p, events, n - 1);
      BeforeNext(events, n);
      SeenOneMore(p, Before(events, n - 1), events[n - 1], key, cutoff);
      FailuresOneMore(events, key, cutoff, n - 1);
    }
  }

  lemma NothingRecent(cutoff: int)
    ensures Recent([], cutoff) == []
  {
  }

  // ---------------------------------------------------------------- what is answered

  /**
    * No false alarm: a check answers "blocked" only if at least `maxFailures` failures of the
    * key were recorded inside the window and since its last reset; so never of a key without
    * any, if the limit is positive at all.
    */
  lemma BlockedIsEarned(p: Params, events: seq<Event>, n: nat)
    requires Runs(p, Init(), events) && n < |events| && events[n].op.Check? && events[n].answer
    ensures |Failures(events, events[n].op.key, events[n].op.pruneAt - p.window, n)| >= p.maxFailures
  {
    hide Step, Inv, Failures;
    RunHolds(p, events, n);
    StepMeansSeen(p, events, n);
    CheckIsDeserved(p, Before(events, n), events[n]);
    SeenCounts(p, events, events[n].op.key, events[n].op.pruneAt - p.window, n);
    hide Recent;
  }

  lemma StepMeansSeen(p: Params, events: seq<Event>, n: nat)
    requires n < |events| && Step(p, Before(events, n), events[n]) && events[n].op.Check?
    ensures events[n].after.seen == Before(events, n).seen
  {
    hide Worked, Swept;
  }

  /** After the `i`th call at most `capacity` keys have a failure that counts. */
  predicate FewLive(p: Params, events: seq<Event>, i: nat)
    requires i < |events|
  {
    |Live(events, events[i].after.clock - p.window, i + 1)| <= p.capacity
  }

  /** And so after each of the first `n` calls. */
  predicate NeverCrowded(p: Params, events: seq<Event>, n: nat)
    requires n <= |events|
  {
    forall i :: 0 <= i < n ==> FewLive(p, events, i)
  }

  lemma LiveMeans(events: seq<Event>, key: Key, cutoff: int, n: nat)
    ensures key in Live(events, cutoff, n) <==> Failures(events, key, cutoff, n) != {}
  {
    if key in Live(events, cutoff, n) {
      var j: nat :| 0 <= j < n && j < |events| && Counts(events, events[j].op.key, cutoff, j, n) && events[j].op.key == key;
      assert j in Failures(events, key, cutoff, n);
    }
    if j: nat :| j in Failures(events, key, cutoff, n) {
      assert events[j].op.key in Live(events, cutoff, n);
    }
  }

  lemma LiveKeysMeans(p: Params, s: State, key: Key)
    ensures key in LiveKeys(p, s) <==> Recent(LogOf(s.seen, key), s.clock - p.window) != []
  {
    NothingRecent(s.clock - p.window);
    hide Recent;
  }

  lemma LiveAreSeen(p: Params, events: seq<Event>, n: nat)
    requires Runs(p, Init(), events) && 1 <= n <= |events|
    ensures Live(events, events[n - 1].after.clock - p.window, n) == LiveKeys(p, events[n - 1].after)
  {
    hide Runs, Live, LiveKeys, Failures, Recent, Init;
    var s := events[n - 1].after;
    var cutoff := s.clock - p.window;
    var live, seen := Live(events, cutoff, n), LiveKeys(p, s);
    forall key: Key
      ensures key in live <==> key in seen
    {
      SeenCounts(p, events, key, cutoff, n);
      LiveMeans(events, key, cutoff, n);
      LiveKeysMeans(p, s, key);
    }
  }

  lemma FewLiveIsUncrowded(p: Params, events: seq<Event>, i: nat)
    requires Runs(p, Init(), events) && i < |events| && FewLive(p, events, i)
    ensures Uncrowded(p, events[i].after)
  {
    hide Runs, Live, LiveKeys, Init;
    LiveAreSeen(p, events, i + 1);
  }

  lemma NotCrowdedAt(p: Params, events: seq<Event>, n: nat)
    requires Runs(p, Init(), events) && 1 <= n <= |events| && NeverCrowded(p, events, n)
    ensures Uncrowded(p, events[n - 1].after) && NeverCrowded(p, events, n - 1)
  {
    hide FewLive, Runs, Uncrowded;
    assert FewLive(p, events, n - 1);
    FewLiveIsUncrowded(p, events, n - 1);
  }

  lemma {:induction false} UncrowdedIsExact(p: Params, events: seq<Event>, n: nat)
    requires Runs(p, Init(), events) && n <= |events| && NeverCrowded(p, events, n)
    ensures Exact(p, Before(events, n))
    decreases n
  {
    InitIsExact(p);
    hide Step, Inv, Exact, NeverCrowded, Uncrowded, Runs, Init;
    if n > 0 {
      NotCrowdedAt(p, events, n);
      UncrowdedIsExact(p, events, n - 1);
      RunHolds(p, events, n - 1);
      StepKeepsExact(p, Before(events, n - 1), events[n - 1]);
    }
  }

  /**
    * And none missed: while no more than `capacity` keys have failures in the window, a check
    * answers "blocked" exactly if that many failures of the key count.
    */
  lemma UncrowdedAnswersAreExact(p: Params, events: seq<Event>, n: nat)
    requires Runs(p, Init(), events) && n < |events| && events[n].op.Check? && NeverCrowded(p, events, n)
    ensures events[n].answer <==>
            |Failures(events, events[n].op.key, events[n].op.pruneAt - p.window, n)| >= p.maxFailures
  {
    hide Step, Inv, Exact, NeverCrowded, Failures;
    RunHolds(p, events, n);
    UncrowdedIsExact(p, events, n);
    ExactAnswers(p, Before(events, n), events[n]);
    SeenCounts(p, events, events[n].op.key, events[n].op.pruneAt - p.window, n);
    hide Recent;
  }
}
