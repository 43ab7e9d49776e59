/**
  * The cross-process configuration lock: every process races to create one lock file with
  * O_CREATE|O_EXCL, a lock whose owner looks dead or whose file looks old is reclaimed, and
  * release removes the file only if it is still the one this process created.
  *
  * Each system call is one step.  Any number of processes interleave their steps in any
  * order and may die between any two of them; the clock advances at any time.  An inode number
  * may be reused as soon as its file is unlinked and closed, so nothing rests on its freshness.
  */
module ConfigLock {
  import opened Basics

  type Pid = nat

  /** The reclaim age, two minutes in nanoseconds. */
  const STALE_AFTER: int := 120_000_000_000

  /**
    * The file at the lock path.  `creator` is who created it (the code cannot see this);
    * `record` is the PID the creator has written into it, if it has written it yet.
    */
  datatype LockFile = LockFile(inode: nat, creator: Pid, record: Option<Pid>, mtime: int)

  /** Where a process stands; the comments give the call it is about to make. */
  datatype Pc =
    | Idle                      // not locking
    | Opening                   // create the file exclusively
    | Created(inode: nat)       // write host and PID into the new file
    | Recorded(inode: nat)      // fstat the new file
    | Holding(inode: nat)       // inside the critical section
    | Unlocking(inode: nat)     // stat the path and compare inodes
    | Confirmed(inode: nat)     // remove the path
    | Reading                   // read the existing lock file
    | Probing(owner: Pid)       // ask whether the recorded owner is alive
    | Dating                    // stat the lock file for its age
    | Aging(mtime: int)         // compare that age with the clock
    | Reclaiming                // remove the file judged stale
    | Waiting                   // sleep and retry, or give up
    | Dead                      // exited or crashed

  datatype State = State(file: Option<LockFile>, procs: map<Pid, Pc>, now: int)

  datatype Action =
    | Begin(p: Pid)
    | Open(p: Pid, inode: nat)
    | OpenError(p: Pid)
    | Record(p: Pid, written: bool)
    | StatOwn(p: Pid, ok: bool)
    | Finish(p: Pid)
    | Confirm(p: Pid)
    | Unlink(p: Pid)
    | Read(p: Pid, sameHost: bool)
    | Probe(p: Pid, alive: bool)
    | Date(p: Pid)
    | Age(p: Pid)
    | Reclaim(p: Pid)
    | Retry(p: Pid, again: bool)
    | Die(p: Pid)
    | Tick(d: nat)

  function At(s: State, p: Pid): Pc {
    if p in s.procs then s.procs[p] else Idle
  }

  function Move(s: State, p: Pid, pc: Pc): State {
    s.(procs := s.procs[p := pc])
  }

  function Init(): State {
    State(None, map[], 0)
  }

  /** The process still has the file it created open; it closes it after the fstat. */
  predicate HasOpen(pc: Pc, inode: nat) {
    (pc.Created? || pc.Recorded?) && pc.inode == inode
  }

  /** The number of a new inode: none that a process has open. */
  predicate Unused(s: State, inode: nat) {
    forall p :: p in s.procs ==> !HasOpen(At(s, p), inode)
  }

  /** When each step may happen. The liveness probe may answer "dead" only of a dead process. */
  predicate Enabled(s: State, a: Action) {
    match a
    case Begin(p) => At(s, p).Idle?
    case Open(p, inode) => At(s, p).Opening? && (s.file.None? ==> Unused(s, inode))
    case OpenError(p) => At(s, p).Opening?
    case Record(p, _) => At(s, p).Created?
    case StatOwn(p, _) => At(s, p).Recorded?
    case Finish(p) => At(s, p).Holding?
    case Confirm(p) => At(s, p).Unlocking?
    case Unlink(p) => At(s, p).Confirmed?
    case Read(p, _) => At(s, p).Reading?
    case Probe(p, alive) => At(s, p).Probing? && (alive || At(s, At(s, p).owner).Dead?)
    case Date(p) => At(s, p).Dating?
    case Age(p) => At(s, p).Aging?
    case Reclaim(p) => At(s, p).Reclaiming?
    case Retry(p, _) => At(s, p).Waiting?
    case Die(p) => true
    case Tick(d) => true
  }

  function Next(s: State, a: Action): State
    requires Enabled(s, a)
  {
    match a
    case Begin(p) => Move(s, p, Opening)
    case Open(p, inode) =>
      if s.file.None? then
        Move(s, p, Created(inode)).(file := Some(LockFile(inode, p, None, s.now)))
      else
        Move(s, p, Reading)
    case OpenError(p) => Move(s, p, Idle)
    case Record(p, written) =>
      var inode := At(s, p).inode;
      var s' := Move(s, p, Recorded(inode));
      if written && s.file.Some? && s.file.value.creator == p && s.file.value.inode == inode then
        s'.(file := Some(s.file.value.(record := Some(p), mtime := s.now)))
      else
        s'
    case StatOwn(p, ok) =>
      if ok then Move(s, p, Holding(At(s, p).inode))
      else Move(s, p, Idle).(file := None)
    case Finish(p) => Move(s, p, Unlocking(At(s, p).inode))
    case Confirm(p) =>
      var inode := At(s, p).inode;
      if s.file.Some? && s.file.value.inode == inode then Move(s, p, Confirmed(inode))
      else Move(s, p, Idle)
    case Unlink(p) => Move(s, p, Idle).(file := None)
    case Read(p, sameHost) =>
      if s.file.Some? && s.file.value.record.Some? && sameHost then
        Move(s, p, Probing(s.file.value.record.value))
      else
        Move(s, p, Dating)
    case Probe(p, alive) => Move(s, p, if alive then Dating else Reclaiming)
    case Date(p) =>
      Move(s, p, if s.file.Some? then Aging(s.file.value.mtime) else Waiting)
    case Age(p) =>
      Move(s, p, if s.now - At(s, p).mtime > STALE_AFTER then Reclaiming else Waiting)
    case Reclaim(p) => Move(s, p, Opening).(file := None)
    case Retry(p, again) => Move(s, p, if again then Opening else Idle)
    case Die(p) => Move(s, p, Dead)
    case Tick(d) => s.(now := s.now + d)
  }

  /** A run is the list of its steps. */
  predicate Runs(s: State, run: seq<Action>)
    decreases |run|
  {
    run == [] || (Enabled(s, run[0]) && Runs(Next(s, run[0]), run[1..]))
  }

  function After(s: State, run: seq<Action>): State
    requires Runs(s, run)
    decreases |run|
  {
    if run == [] then s else After(Next(s, run[0]), run[1..])
  }

  // ---------------------------------------------------------------- what must stay true

  /** Between creating the lock file and letting go of it. */
  predicate Owns(pc: Pc) {
    pc.Created? || pc.Recorded? || pc.Holding? || pc.Unlocking? || pc.Confirmed?
  }

  /** The lock path names the file that process `p` created. */
  predicate PathNames(s: State, p: Pid)
    requires Owns(At(s, p))
  {
    s.file.Some? && s.file.value.creator == p && s.file.value.inode == At(s, p).inode
  }

  ghost predicate Owned(s: State) {
    && (forall p: Pid :: Owns(At(s, p)) ==> PathNames(s, p))
    && (s.file.Some? ==> Owns(At(s, s.file.value.creator)) || At(s, s.file.value.creator).Dead?)
  }

  ghost predicate MutualExclusion(s: State) {
    forall p: Pid, q: Pid :: At(s, p).Holding? && At(s, q).Holding? ==> p == q
  }

  /** The reclaiming removal (the only step that can hurt) hits no live process's file. */
  predicate Harmless(s: State, a: Action) {
    a.Reclaim? && s.file.Some? ==> At(s, s.file.value.creator).Dead?
  }

  /** Every step of the run satisfies `ok` in the state where it happens. */
  ghost predicate AllSteps(s: State, run: seq<Action>, ok: (State, Action) -> bool)
    requires Runs(s, run)
    decreases |run|
  {
    run != [] ==> ok(s, run[0]) && AllSteps(Next(s, run[0]), run[1..], ok)
  }

  lemma OwnedGivesMutualExclusion(s: State)
    requires Owned(s)
    ensures MutualExclusion(s)
  {
    forall p: Pid, q: Pid | At(s, p).Holding? && At(s, q).Holding?
      ensures p == q
    {
      assert PathNames(s, p) && PathNames(s, q);
    }
  }

  lemma StepKeepsOwned(s: State, a: Action)
    requires Owned(s) && Enabled(s, a) && Harmless(s, a)
    ensures Owned(Next(s, a))
  {
    var s' := Next(s, a);
    forall p: Pid | Owns(At(s', p))
      ensures PathNames(s', p)
    {
      if a.Open? && a.p == p {
      } else {
        assert Owns(At(s, p)) && PathNames(s, p);
      }
    }
  }

  /**
    * Safety of every run: as long as no reclaim removes a live process's file, at every
    * moment at most one process is in the critical section, the lock path names the inode
    * its holder created, and a release removes its own file.
    */
  lemma {:induction false} HarmlessRunsAreSafe(s: State, run: seq<Action>)
    requires Owned(s) && Runs(s, run) && AllSteps(s, run, Harmless)
    ensures Owned(After(s, run)) && MutualExclusion(After(s, run))
    ensures forall p: Pid :: Enabled(After(s, run), Unlink(p)) ==>
              After(s, run).file.Some? && After(s, run).file.value.creator == p
    decreases |run|
  {
    OwnedGivesMutualExclusion(s);
    if run != [] {
      StepKeepsOwned(s, run[0]);
      HarmlessRunsAreSafe(Next(s, run[0]), run[1..]);
    } else {
      forall p: Pid | Enabled(s, Unlink(p))
        ensures s.file.Some? && s.file.value.creator == p
      {
        assert PathNames(s, p);
      }
    }
  }

  // ---------------------------------------------------------------- when reclaims are harmless

  /** A verdict is the step that judges a lock stale. */
  predicate Verdict(s: State, a: Action) {
    || (a.Probe? && !a.alive)
    || (a.Age? && At(s, a.p).Aging? && s.now - At(s, a.p).mtime > STALE_AFTER)
  }

  predicate NoVerdict(s: State, a: Action) {
    !Verdict(s, a)
  }

  ghost predicate NoneReclaiming(s: State) {
    forall p: Pid :: !At(s, p).Reclaiming?
  }

  lemma {:induction false} NoVerdictsAreHarmless(s: State, run: seq<Action>)
    requires NoneReclaiming(s) && Runs(s, run) && AllSteps(s, run, NoVerdict)
    ensures AllSteps(s, run, Harmless)
    decreases |run|
  {
    if run != [] {
      var s' := Next(s, run[0]);
      forall p: Pid ensures !At(s', p).Reclaiming? {
        assert !At(s, p).Reclaiming?;
      }
      NoVerdictsAreHarmless(s', run[1..]);
    }
  }

  lemma InitReclaims()
    ensures NoneReclaiming(Init())
  {
  }

  /** First theorem: a run in which no lock is ever judged stale is safe. */
  lemma NoStaleVerdictIsSafe(run: seq<Action>)
    requires Runs(Init(), run) && AllSteps(Init(), run, NoVerdict)
    ensures Owned(After(Init(), run)) && MutualExclusion(After(Init(), run))
  {
    NoVerdictsAreHarmless(Init(), run);
    HarmlessRunsAreSafe(Init(), run);
  }

  /** A sound verdict: the file at the path when it is judged stale belongs to a dead process. */
  predicate SoundVerdict(s: State, a: Action) {
    Verdict(s, a) ==> s.file.Some? && At(s, s.file.value.creator).Dead?
  }

  ghost predicate OneReclaimer(s: State) {
    forall p: Pid, q: Pid :: At(s, p).Reclaiming? && At(s, q).Reclaiming? ==> p == q
  }

  ghost predicate SingleAfter(s: State, a: Action) {
    Enabled(s, a) ==> OneReclaimer(Next(s, a))
  }

  /** Whoever is about to remove a lock still faces the dead process's file it judged. */
  ghost predicate VerdictStands(s: State) {
    forall p: Pid :: At(s, p).Reclaiming? ==> s.file.Some? && At(s, s.file.value.creator).Dead?
  }

  lemma StepKeepsVerdict(s: State, a: Action)
    requires Owned(s) && VerdictStands(s) && OneReclaimer(s)
    requires Enabled(s, a) && SoundVerdict(s, a)
    ensures Harmless(s, a) && VerdictStands(Next(s, a))
  {
    var s' := Next(s, a);
    forall p: Pid | At(s', p).Reclaiming?
      ensures s'.file.Some? && At(s', s'.file.value.creator).Dead?
    {
      if !Verdict(s, a) {
        assert At(s, p).Reclaiming?;
      }
    }
  }

  lemma {:induction false} SoundSingleIsHarmless(s: State, run: seq<Action>)
    requires Owned(s) && VerdictStands(s) && Runs(s, run)
    requires OneReclaimer(s) && AllSteps(s, run, SoundVerdict) && AllSteps(s, run, SingleAfter)
    ensures AllSteps(s, run, Harmless)
    decreases |run|
  {
    if run != [] {
      StepKeepsVerdict(s, run[0]);
      StepKeepsOwned(s, run[0]);
      SoundSingleIsHarmless(Next(s, run[0]), run[1..]);
    }
  }

  /**
    * Second theorem: with reclaiming, a run is safe if every lock judged stale is at that
    * moment the file of a dead process and at most one process is between judging a lock
    * stale and removing it.
    */
  lemma SoundSingleReclaimIsSafe(run: seq<Action>)
    requires Runs(Init(), run)
    requires AllSteps(Init(), run, SoundVerdict) && AllSteps(Init(), run, SingleAfter)
    ensures Owned(After(Init(), run)) && MutualExclusion(After(Init(), run))
  {
    SoundSingleIsHarmless(Init(), run);
    HarmlessRunsAreSafe(Init(), run);
  }

  // ---------------------------------------------------------------- the condition is exact

  lemma {:induction false} Extend(s: State, run: seq<Action>, a: Action)
    requires Runs(s, run) && Enabled(After(s, run), a)
    ensures Runs(s, run + [a]) && After(s, run + [a]) == Next(After(s, run), a)
    decreases |run|
  {
    if run == [] {
      assert [a][1..] == [];
    } else {
      Extend(Next(s, run[0]), run[1..], a);
      assert (run + [a])[1..] == run[1..] + [a];
    }
  }

  /** One more step, for building runs: the run extended by `a` and the state it reaches. */
  lemma Then(s: State, run: seq<Action>, a: Action) returns (run': seq<Action>, t: State)
    requires Runs(s, run) && Enabled(After(s, run), a)
    ensures run' == run + [a] && Runs(s, run') && t == After(s, run') == Next(After(s, run), a)
  {
    Extend(s, run, a);
    run', t := run + [a], Next(After(s, run), a);
  }

  predicate ReclaimFree(run: seq<Action>) {
    forall i :: 0 <= i < |run| ==> !run[i].Reclaim?
  }

  lemma {:induction false} ReclaimFreeIsHarmless(s: State, run: seq<Action>)
    requires Runs(s, run) && ReclaimFree(run)
    ensures AllSteps(s, run, Harmless)
    decreases |run|
  {
    if run != [] {
      ReclaimFreeIsHarmless(Next(s, run[0]), run[1..]);
    }
  }

  /** A process about to open a free lock path can always walk into the critical section. */
  lemma WalkIn(s: State, run: seq<Action>, p: Pid, inode: nat) returns (run': seq<Action>)
    requires Runs(s, run) && After(s, run).file.None? && At(After(s, run), p).Opening?
    requires Unused(After(s, run), inode)
    ensures Runs(s, run') && (ReclaimFree(run) ==> ReclaimFree(run'))
    ensures At(After(s, run'), p) == Holding(inode)
    ensures After(s, run').file.Some? && After(s, run').file.value.inode == inode
    ensures forall q: Pid :: q != p ==> At(After(s, run'), q) == At(After(s, run), q)
  {
    var t;
    run', t := Then(s, run, Open(p, inode));
    run', t := Then(s, run', Record(p, true));
    run', t := Then(s, run', StatOwn(p, true));
  }

  /** The holder of the removed file still reaches, or stays in, the critical section. */
  lemma FinishWalking(s: State, run: seq<Action>, q: Pid) returns (run': seq<Action>)
    requires Runs(s, run)
    requires var pc := At(After(s, run), q); pc.Created? || pc.Recorded? || pc.Holding?
    ensures Runs(s, run') && (ReclaimFree(run) ==> ReclaimFree(run'))
    ensures At(After(s, run'), q).Holding?
    ensures forall p: Pid :: p != q ==> At(After(s, run'), p) == At(After(s, run), p)
  {
    var t := After(s, run);
    run' := run;
    if At(t, q).Created? {
      run', t := Then(s, run', Record(q, true));
    }
    if At(t, q).Recorded? {
      run', t := Then(s, run', StatOwn(q, true));
    }
  }

  /** Two distinct processes are inside the critical section. */
  predicate Broken(s: State, p: Pid, q: Pid) {
    p != q && At(s, p).Holding? && At(s, q).Holding?
  }

  /**
    * The condition cannot be weakened: if a reclaim removes the file of a process that is
    * still alive, some continuation without any further reclaim puts two processes in the
    * critical section at once.
    */
  lemma HarmfulReclaimBreaks(s: State, p: Pid) returns (run: seq<Action>, x: Pid, y: Pid)
    requires Owned(s) && Enabled(s, Reclaim(p)) && !Harmless(s, Reclaim(p))
    ensures Runs(Next(s, Reclaim(p)), run) && ReclaimFree(run)
    ensures Broken(After(Next(s, Reclaim(p)), run), x, y)
  {
    var q := s.file.value.creator;
    assert Owns(At(s, q)) && PathNames(s, q) && p != q;
    var inode := At(s, q).inode;
    var s' := Next(s, Reclaim(p));
    var t;
    x, y := p, q;
    OnlyOwnerHasOpen(s, q);
    forall r: Pid, i | HasOpen(At(s', r), i)
      ensures r == q && i == inode
    {
      assert HasOpen(At(s, r), i);
    }
    if At(s, q).Unlocking? || At(s, q).Confirmed? {
      run := WalkIn(s', [], p, inode);
      // The releasing process removes the new lock and comes back for its own.
      if At(s, q).Unlocking? {
        run, t := Then(s', run, Confirm(q));
      }
      run, t := Then(s', run, Unlink(q));
      run, t := Then(s', run, Begin(q));
      assert Unused(t, inode) by {
        forall r | r in t.procs
          ensures !HasOpen(At(t, r), inode)
        {
          assert r != p && r != q ==> At(t, r) == At(s', r);
        }
      }
      run := WalkIn(s', run, q, inode);
    } else {
      run := WalkIn(s', [], p, inode + 1);
      run := FinishWalking(s', run, q);
    }
  }

  /** Nobody but the owner has a lock file open that it created. */
  lemma OnlyOwnerHasOpen(s: State, q: Pid)
    requires Owned(s) && s.file.Some? && s.file.value.creator == q
    ensures forall r, inode :: HasOpen(At(s, r), inode) ==> r == q && inode == At(s, q).inode
  {
    forall r, inode | HasOpen(At(s, r), inode)
      ensures r == q && inode == At(s, q).inode
    {
      assert Owns(At(s, r)) && PathNames(s, r);
    }
  }

  /**
    * Exactly when one pending reclaim is safe: removing the lock now leaves every later
    * run with harmless reclaims safe, if and only if the file it removes (if any) was
    * created by a process that is dead.
    */
  ghost predicate SafeFromHere(s: State, p: Pid)
    requires Enabled(s, Reclaim(p))
  {
    forall run :: Runs(Next(s, Reclaim(p)), run) && AllSteps(Next(s, Reclaim(p)), run, Harmless) ==>
      MutualExclusion(After(Next(s, Reclaim(p)), run))
  }

  lemma ReclaimSafeIffOwnerDead(s: State, p: Pid)
    requires Owned(s) && Enabled(s, Reclaim(p))
    ensures SafeFromHere(s, p) <==> (s.file.None? || At(s, s.file.value.creator).Dead?)
  {
    var s' := Next(s, Reclaim(p));
    if Harmless(s, Reclaim(p)) {
      StepKeepsOwned(s, Reclaim(p));
      forall run | Runs(s', run) && AllSteps(s', run, Harmless)
        ensures MutualExclusion(After(s', run))
      {
        HarmlessRunsAreSafe(s', run);
      }
    } else {
      var run, x, y := HarmfulReclaimBreaks(s, p);
      ReclaimFreeIsHarmless(s', run);
      assert !MutualExclusion(After(s', run));
    }
  }

  // ---------------------------------------------------------------- neither half suffices

  /** A run from the initial state whose steps all satisfy `ok`. */
  ghost predicate Trace(run: seq<Action>, t: State, ok: (State, Action) -> bool) {
    Runs(Init(), run) && AllSteps(Init(), run, ok) && After(Init(), run) == t
  }

  lemma {:induction false} ExtendSteps(s: State, run: seq<Action>, a: Action, ok: (State, Action) -> bool)
    requires Runs(s, run) && AllSteps(s, run, ok)
    requires Enabled(After(s, run), a) && ok(After(s, run), a)
    ensures Runs(s, run + [a]) && AllSteps(s, run + [a], ok)
    decreases |run|
  {
    Extend(s, run, a);
    if run == [] {
      assert [a][1..] == [];
    } else {
      ExtendSteps(Next(s, run[0]), run[1..], a, ok);
      assert (run + [a])[1..] == run[1..] + [a];
    }
  }

  lemma Step(run: seq<Action>, s: State, a: Action, ok: (State, Action) -> bool)
    returns (run': seq<Action>, t: State)
    requires Trace(run, s, ok) && Enabled(s, a) && ok(s, a)
    ensures t == Next(s, a) && Trace(run', t, ok)
  {
    ExtendSteps(Init(), run, a, ok);
    Extend(Init(), run, a);
    run', t := run + [a], Next(s, a);
  }

  /** Steps that neither judge a lock nor end a process satisfy every condition below. */
  ghost predicate Lenient(ok: (State, Action) -> bool) {
    forall s, a :: Enabled(s, a) && OneReclaimer(s) && !Verdict(s, a) && !a.Die? ==> ok(s, a)
  }

  lemma QuietStep(s: State, a: Action)
    requires OneReclaimer(s) && Enabled(s, a) && !Verdict(s, a)
    ensures OneReclaimer(Next(s, a))
  {
    var t := Next(s, a);
    forall p: Pid, q: Pid | At(t, p).Reclaiming? && At(t, q).Reclaiming?
      ensures p == q
    {
      assert At(s, p).Reclaiming? && At(s, q).Reclaiming?;
    }
  }

  /** A process that finds the path free enters the critical section. */
  lemma Enter(run: seq<Action>, s: State, p: Pid, inode: nat, ok: (State, Action) -> bool)
    returns (run': seq<Action>, t: State)
    requires Trace(run, s, ok) && Lenient(ok) && OneReclaimer(s)
    requires s.file.None? && At(s, p).Opening? && Unused(s, inode)
    ensures Trace(run', t, ok) && OneReclaimer(t)
    ensures t == Move(s, p, Holding(inode)).(file := Some(LockFile(inode, p, Some(p), s.now)))
  {
    QuietStep(s, Open(p, inode));
    run', t := Step(run, s, Open(p, inode), ok);
    QuietStep(t, Record(p, true));
    run', t := Step(run', t, Record(p, true), ok);
    QuietStep(t, StatOwn(p, true));
    run', t := Step(run', t, StatOwn(p, true), ok);
    assert t.procs == s.procs[p := Holding(inode)];
  }

  /** A process that meets an existing lock reads it and is about to probe its owner. */
  lemma Meet(run: seq<Action>, s: State, p: Pid, ok: (State, Action) -> bool)
    returns (run': seq<Action>, t: State)
    requires Trace(run, s, ok) && Lenient(ok) && OneReclaimer(s)
    requires s.file.Some? && s.file.value.record.Some? && At(s, p).Idle?
    ensures Trace(run', t, ok) && OneReclaimer(t)
    ensures t == Move(s, p, Probing(s.file.value.record.value))
  {
    QuietStep(s, Begin(p));
    run', t := Step(run, s, Begin(p), ok);
    QuietStep(t, Open(p, 0));
    run', t := Step(run', t, Open(p, 0), ok);
    QuietStep(t, Read(p, true));
    run', t := Step(run', t, Read(p, true), ok);
    assert t.procs == s.procs[p := At(t, p)];
  }

  /** The opening scene of both counterexamples: process 0 holds the lock. */
  lemma FirstHolder(ok: (State, Action) -> bool) returns (run: seq<Action>, t: State)
    requires Lenient(ok)
    ensures Trace(run, t, ok) && OneReclaimer(t)
    ensures t == State(Some(LockFile(7, 0, Some(0), 0)), map[0 := Holding(7)], 0)
  {
    run, t := Step([], Init(), Begin(0), ok);
    run, t := Enter(run, t, 0, 7, ok);
    assert t.procs == map[0 := Holding(7)];
  }

  const FIRST_LOCK := Some(LockFile(7, 0, Some(0), 0))

  /** Two processes judge the lock of a dead process stale. */
  lemma TwoVerdicts() returns (run: seq<Action>, t: State)
    ensures Trace(run, t, SoundVerdict)
    ensures t == State(FIRST_LOCK, map[0 := Dead, 1 := Reclaiming, 2 := Reclaiming], 0)
  {
    hide Trace;
    run, t := FirstHolder(SoundVerdict);
    run, t := Step(run, t, Die(0), SoundVerdict);
    run, t := Meet(run, t, 1, SoundVerdict);
    run, t := Meet(run, t, 2, SoundVerdict);
    run, t := Step(run, t, Probe(1, false), SoundVerdict);
    run, t := Step(run, t, Probe(2, false), SoundVerdict);
    assert t.procs == map[0 := Dead, 1 := Reclaiming, 2 := Reclaiming];
  }

  /**
    * Sound verdicts alone are not enough: two processes judge the same dead owner's lock
    * stale, the first reclaims it and enters, and the second removes the first one's lock.
    */
  lemma TwoReclaimersBreak() returns (run: seq<Action>, t: State)
    ensures Trace(run, t, SoundVerdict) && Broken(t, 1, 2)
  {
    hide Trace;
    run, t := TwoVerdicts();
    run, t := Step(run, t, Reclaim(1), SoundVerdict);
    run, t := Enter(run, t, 1, 8, SoundVerdict);
    run, t := Step(run, t, Reclaim(2), SoundVerdict);
    run, t := Enter(run, t, 2, 9, SoundVerdict);
  }

  /** One reclaimer at a time, and a process only ever ends while it is not locking. */
  ghost predicate SingleAndOrderly(s: State, a: Action) {
    SingleAfter(s, a) && (a.Die? ==> At(s, a.p).Idle?)
  }

  lemma SingleAndOrderlyIsLenient()
    ensures Lenient(SingleAndOrderly)
  {
    forall s, a | Enabled(s, a) && OneReclaimer(s) && !Verdict(s, a) && !a.Die?
      ensures SingleAndOrderly(s, a)
    {
      QuietStep(s, a);
    }
  }

  /** Process 1 has read the first lock when its owner releases it and exits. */
  lemma OwnerExits() returns (run: seq<Action>, t: State)
    ensures Trace(run, t, SingleAndOrderly)
    ensures t == State(None, map[0 := Dead, 1 := Probing(0)], 0)
  {
    hide Trace;
    SingleAndOrderlyIsLenient();
    run, t := FirstHolder(SingleAndOrderly);
    run, t := Meet(run, t, 1, SingleAndOrderly);
    run, t := Step(run, t, Finish(0), SingleAndOrderly);
    run, t := Step(run, t, Confirm(0), SingleAndOrderly);
    run, t := Step(run, t, Unlink(0), SingleAndOrderly);
    run, t := Step(run, t, Die(0), SingleAndOrderly);
    assert t.procs == map[0 := Dead, 1 := Probing(0)];
  }

  /**
    * A single reclaimer is not enough either, even when nobody ends while holding the lock:
    * the owner it read about releases and exits before the probe, a third process takes the
    * lock, and the reclaimer removes that process's file.
    */
  lemma ExitedOwnerBreaks() returns (run: seq<Action>, t: State)
    ensures Trace(run, t, SingleAndOrderly) && Broken(t, 1, 2)
  {
    hide Trace;
    SingleAndOrderlyIsLenient();
    run, t := OwnerExits();
    run, t := Step(run, t, Begin(2), SingleAndOrderly);
    run, t := Enter(run, t, 2, 8, SingleAndOrderly);
    run, t := Step(run, t, Probe(1, false), SingleAndOrderly);
    run, t := Step(run, t, Reclaim(1), SingleAndOrderly);
    run, t := Enter(run, t, 1, 9, SingleAndOrderly);
  }
}
