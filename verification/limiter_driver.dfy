/**
  * The class and its runs, joined: whatever calls are made of a limiter, in clock order, are
  * a run in the sense of the theorems about runs.
  */
module LimiterDriver {
  import opened SlidingWindow
  import opened FailureLimiter
  import opened LimiterRuns

  /** When a call takes its last clock reading; a reset takes none. */
  function EndsAt(clock: int, op: Op): int {
    if op.Reset? then clock else op.sweepAt
  }

  /** Every call reads the clock after the ones before it. */
  predicate InOrder(clock: int, ops: seq<Op>)
    decreases |ops|
  {
    ops != [] ==> Timely(clock, ops[0], EndsAt(clock, ops[0])) && InOrder(EndsAt(clock, ops[0]), ops[1..])
  }

  /** What a call of the class does to its contents is what a step says. */
  lemma CallIsStep(p: Params, s: State, e: Event, unexpired: Logs)
    requires Timely(s.clock, e.op, e.after.clock) && e.after.seen == Remembered(s.seen, e.op)
    requires var m := Worked(p, s.kept, e.op);
             if e.op.Reset? then e.after.kept == m
             else Sweeps(p, m, unexpired, e.after.kept, e.op.key, e.after.clock - p.window)
    requires e.op.Check? ==> e.answer == Blocked(p, e.after.kept, e.op.key)
    ensures Step(p, s, e)
  {
    hide Recent, Worked, Remembered, Evicts, Blocked;
  }

  method Perform(l: Limiter, op: Op, ghost s: State) returns (answer: bool, ghost e: Event)
    requires l.Valid() && l.Contents == s.kept && Timely(s.clock, op, EndsAt(s.clock, op))
    modifies l, l.Owner.Keys
    ensures l.Valid() && forall b :: b in l.Owner && b !in old(l.Owner) ==> fresh(b)
    ensures e.op == op && e.answer == answer && Step(l.settings, s, e)
    ensures l.Contents == e.after.kept && e.after.clock == EndsAt(s.clock, op)
  {
    hide Recent, Evicts, Pruned, Sweeps, Blocked, Step;
    answer := false;
    ghost var unexpired: Logs;
    ghost var before: Logs;
    match op {
      case Check(key, pruneAt, sweepAt) =>
        answer, before, unexpired := l.IsBlocked(key, pruneAt, sweepAt);
      case Fail(key, pruneAt, recordAt, sweepAt) =>
        before, unexpired := l.RecordFailure(key, pruneAt, recordAt, sweepAt);
      case Reset(key) =>
        l.Reset(key);
        unexpired := map[];
    }
    e := Event(op, answer, State(l.Contents, Remembered(s.seen, op), EndsAt(s.clock, op)));
    CallIsStep(l.settings, s, e, unexpired);
  }

  /** The run a sequence of calls makes, from the limiter's present contents. */
  method Drive(l: Limiter, ops: seq<Op>, ghost s: State) returns (answers: seq<bool>, ghost events: seq<Event>)
    requires l.Valid() && l.Contents == s.kept && InOrder(s.clock, ops)
    modifies l, l.Owner.Keys
    ensures Runs(l.settings, s, events)
    ensures |events| == |answers| == |ops|
    ensures forall i :: 0 <= i < |ops| ==> events[i].op == ops[i] && events[i].answer == answers[i]
    decreases |ops|
  {
    hide Step, Timely;
    if ops == [] {
      return [], [];
    }
    var answer, e := Perform(l, ops[0], s);
    var rest, later := Drive(l, ops[1..], e.after);
    answers, events := [answer] + rest, [e] + later;
    assert events[1..] == later;
  }
}
