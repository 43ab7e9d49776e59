/**
  * When a process takes over a lock file that is in its way: after two minutes, or as soon as
  * the process recorded in it is found dead; and not before.
  */
module LockReclaim {
  import opened Basics
  import opened ConfigLock

  /** Steps of this process alone, while the clock stands still. */
  ghost predicate OwnSteps(p: Pid, run: seq<Action>) {
    forall a :: a in run ==> !a.Tick? && a.p == p
  }

  /** The run extended by a step of `p` that removes nobody's live lock. */
  lemma Take(s: State, run: seq<Action>, p: Pid, a: Action) returns (run': seq<Action>)
    requires Runs(s, run) && AllSteps(s, run, Harmless) && OwnSteps(p, run)
    requires !a.Tick? && a.p == p && Enabled(After(s, run), a) && Harmless(After(s, run), a)
    ensures run' == run + [a] && Runs(s, run') && AllSteps(s, run', Harmless) && OwnSteps(p, run')
    ensures After(s, run') == Next(After(s, run), a)
  {
    Extend(s, run, a);
    ExtendSteps(s, run, a, Harmless);
    run' := run + [a];
  }

  lemma Nothing(s: State, p: Pid)
    ensures Runs(s, []) && After(s, []) == s && AllSteps(s, [], Harmless) && OwnSteps(p, [])
  {
  }

  /** Recording itself renews the age of a process's own lock file, and touches nobody else's. */
  lemma RecordIsOwn(s: State, p: Pid)
    requires Enabled(s, Record(p, true))
    ensures var t := Next(s, Record(p, true));
            if exists r, m :: s.file == Some(LockFile(At(s, p).inode, p, r, m))
            then t.file == Some(LockFile(At(s, p).inode, p, Some(p), s.now)) else t.file == s.file
  {
    if s.file.Some? && s.file.value.creator == p && s.file.value.inode == At(s, p).inode {
      assert s.file == Some(LockFile(At(s, p).inode, p, s.file.value.record, s.file.value.mtime));
    }
  }

  /** A lock file more than two minutes old is judged stale, whatever it records and whoever is asked. */
  lemma OldIsJudged(s: State, p: Pid, sameHost: bool) returns (run: seq<Action>)
    requires s.file.Some? && s.now - s.file.value.mtime > 120_000_000_000 && At(s, p).Opening?
    ensures Runs(s, run) && AllSteps(s, run, Harmless) && OwnSteps(p, run)
    ensures After(s, run) == Move(s, p, Reclaiming)
  {
    Nothing(s, p);
    run := Take(s, [], p, Open(p, 0));
    run := Take(s, run, p, Read(p, sameHost));
    if At(After(s, run), p).Probing? {
      run := Take(s, run, p, Probe(p, true));
    }
    run := Take(s, run, p, Date(p));
    run := Take(s, run, p, Age(p));
    assert After(s, run).procs == s.procs[p := Reclaiming];
  }

  /** A lock file that records a dead process of the same host is judged stale whatever its age. */
  lemma DeadIsJudged(s: State, p: Pid) returns (run: seq<Action>)
    requires s.file.Some? && s.file.value.record.Some? && At(s, s.file.value.record.value).Dead? && At(s, p).Opening?
    ensures Runs(s, run) && AllSteps(s, run, Harmless) && OwnSteps(p, run)
    ensures After(s, run) == Move(s, p, Reclaiming)
  {
    Nothing(s, p);
    run := Take(s, [], p, Open(p, 0));
    run := Take(s, run, p, Read(p, true));
    run := Take(s, run, p, Probe(p, false));
    assert After(s, run).procs == s.procs[p := Reclaiming];
  }

  /** What makes a lock file reclaimable. */
  predicate Stale(s: State) {
    && s.file.Some?
    && (|| s.now - s.file.value.mtime > 120_000_000_000
        || (s.file.value.record.Some? && At(s, s.file.value.record.value).Dead?))
  }

  lemma StaleIsJudged(s: State, p: Pid) returns (run: seq<Action>)
    requires Stale(s) && At(s, p).Opening?
    ensures Runs(s, run) && AllSteps(s, run, Harmless) && OwnSteps(p, run)
    ensures After(s, run) == Move(s, p, Reclaiming)
  {
    if s.now - s.file.value.mtime > 120_000_000_000 {
      run := OldIsJudged(s, p, false);
    } else {
      run := DeadIsJudged(s, p);
    }
  }

  /**
    * A crashed owner does not hold the lock for ever: behind a stale lock file of a dead
    * process, a process that wants the lock can get into the critical section by its own steps
    * alone, and it is the only one there.
    */
  lemma StaleLockIsTaken(s: State, p: Pid, inode: nat) returns (run: seq<Action>)
    requires Owned(s) && Stale(s) && At(s, s.file.value.creator).Dead? && At(s, p).Opening? && Unused(s, inode)
    ensures Runs(s, run) && OwnSteps(p, run)
    ensures At(After(s, run), p) == Holding(inode) && MutualExclusion(After(s, run))
    ensures After(s, run).file == Some(LockFile(inode, p, Some(p), s.now))
  {
    run := StaleIsJudged(s, p);
    run := Take(s, run, p, Reclaim(p));
    assert Unused(After(s, run), inode) by {
      forall q | q in After(s, run).procs
        ensures !HasOpen(At(After(s, run), q), inode)
      {
        assert q != p ==> At(After(s, run), q) == At(s, q);
      }
    }
    run := Take(s, run, p, Open(p, inode));
    run := Take(s, run, p, Record(p, true));
    run := Take(s, run, p, StatOwn(p, true));
    HarmlessRunsAreSafe(s, run);
  }

  // ---------------------------------------------------------------- and not before

  /** The process is waiting for a lock it has not judged stale. */
  predicate Patient(s: State, p: Pid) {
    s.file.Some? &&
    match At(s, p)
    case Idle => true
    case Opening => true
    case Reading => true
    case Probing(owner) => s.file.value.record == Some(owner)
    case Dating => true
    case Aging(mtime) => mtime == s.file.value.mtime
    case Waiting => true
    case Dead => true
    case _ => false
  }

  /** Stale in the eyes of `p`, which never sees itself dead. */
  predicate StaleTo(s: State, p: Pid) {
    && s.file.Some?
    && (|| s.now - s.file.value.mtime > 120_000_000_000
        || (s.file.value.record.Some? && s.file.value.record.value != p && At(s, s.file.value.record.value).Dead?))
  }

  lemma PatientStays(s: State, p: Pid, a: Action)
    requires Patient(s, p) && !StaleTo(s, p) && Enabled(s, a) && !a.Tick? && a.p == p
    ensures var t := Next(s, a); Patient(t, p) && !StaleTo(t, p) && t.file == s.file
  {
  }

  lemma {:induction false} PatientRunKeepsFile(s: State, p: Pid, run: seq<Action>)
    requires Patient(s, p) && !StaleTo(s, p) && Runs(s, run) && OwnSteps(p, run)
    ensures After(s, run).file == s.file
    decreases |run|
  {
    hide StaleTo, Patient, Enabled;
    if run != [] {
      assert run[0] in run && forall a :: a in run[1..] ==> a in run;
      PatientStays(s, p, run[0]);
      PatientRunKeepsFile(Next(s, run[0]), p, run[1..]);
    }
  }

  /**
    * Exactly the stale locks can be taken over: while the clock stands still, some sequence of
    * a waiting process's own steps makes the lock file go or change if and only if the file is
    * more than two minutes old or records a dead process.
    */
  lemma TakenOverIffStale(s: State, p: Pid)
    requires s.file.Some? && At(s, p).Opening?
    ensures (exists run :: Runs(s, run) && OwnSteps(p, run) && After(s, run).file != s.file) <==>
            || s.now - s.file.value.mtime > 120_000_000_000
            || (s.file.value.record.Some? && At(s, s.file.value.record.value).Dead?)
  {
    if Stale(s) {
      var run := StaleIsJudged(s, p);
      Extend(s, run, Reclaim(p));
      var more := run + [Reclaim(p)];
      assert Runs(s, more) && OwnSteps(p, more) && After(s, more).file == None;
    } else {
      forall run | Runs(s, run) && OwnSteps(p, run)
        ensures After(s, run).file == s.file
      {
        PatientRunKeepsFile(s, p, run);
      }
    }
  }

  /** In particular the fresh lock of a live owner stays, however often a process tries. */
  lemma LiveLockStays(s: State, p: Pid, run: seq<Action>)
    requires s.file.Some? && s.now - s.file.value.mtime <= 120_000_000_000 && At(s, p).Opening?
    requires !At(s, s.file.value.creator).Dead?
    requires s.file.value.record.Some? ==> s.file.value.record.value == s.file.value.creator
    requires Runs(s, run) && OwnSteps(p, run)
    ensures After(s, run).file == s.file
  {
    PatientRunKeepsFile(s, p, run);
  }

  /** What a lock file records, if anything, is who created it. */
  predicate RecordsItsCreator(s: State) {
    s.file.Some? && s.file.value.record.Some? ==> s.file.value.record.value == s.file.value.creator
  }

  lemma {:induction false} RecordIsTrue(s: State, run: seq<Action>)
    requires RecordsItsCreator(s) && Runs(s, run)
    ensures RecordsItsCreator(After(s, run))
    decreases |run|
  {
    if run != [] {
      RecordIsTrue(Next(s, run[0]), run[1..]);
    }
  }

  // ---------------------------------------------------------------- owners on other hosts

  predicate ReadsForeign(run: seq<Action>) {
    forall a :: a in run ==> a.Read? ==> !a.sameHost
  }

  /** Nobody can be asked about a process of another host: its lock goes for its age alone. */
  lemma {:induction false} ForeignLockWaitsForAge(s: State, p: Pid, run: seq<Action>)
    requires Patient(s, p) && !At(s, p).Probing? && s.now - s.file.value.mtime <= 120_000_000_000
    requires Runs(s, run) && OwnSteps(p, run) && ReadsForeign(run)
    ensures After(s, run).file == s.file
    decreases |run|
  {
    if run != [] {
      assert run[0] in run && forall a :: a in run[1..] ==> a in run;
      ForeignLockWaitsForAge(Next(s, run[0]), p, run[1..]);
    }
  }

  // ---------------------------------------------------------------- release and retry

  /** A release removes the lock file if it is still its own, and else leaves it to whoever has it now. */
  lemma ReleaseSparesOthers(s: State, p: Pid) returns (run: seq<Action>)
    requires At(s, p).Unlocking?
    ensures Runs(s, run) && OwnSteps(p, run) && At(After(s, run), p).Idle? && Runs(s, [Confirm(p)])
    ensures s.file.Some? && s.file.value.inode == At(s, p).inode ==> After(s, run).file == None
    ensures s.file.Some? && s.file.value.inode != At(s, p).inode ==>
              After(s, run).file == s.file && At(After(s, [Confirm(p)]), p).Idle?
  {
    Nothing(s, p);
    run := [Confirm(p)];
    Extend(s, [], Confirm(p));
    if s.file.Some? && s.file.value.inode == At(s, p).inode {
      Extend(s, run, Unlink(p));
      run := run + [Unlink(p)];
    }
  }

  /** A process that waits gets the lock by its own steps once it is free. */
  lemma WaiterGetsFreedLock(s: State, p: Pid, inode: nat) returns (run: seq<Action>)
    requires At(s, p).Waiting? && s.file.None? && Unused(s, inode)
    ensures Runs(s, run) && OwnSteps(p, run) && At(After(s, run), p) == Holding(inode)
  {
    Nothing(s, p);
    run := Take(s, [], p, Retry(p, true));
    assert Unused(After(s, run), inode) by {
      forall q | q in After(s, run).procs
        ensures !HasOpen(At(After(s, run), q), inode)
      {
        assert q != p ==> At(After(s, run), q) == At(s, q);
      }
    }
    run := Take(s, run, p, Open(p, inode));
    run := Take(s, run, p, Record(p, true));
    run := Take(s, run, p, StatOwn(p, true));
  }
}
