/**
  * Edits get done: whoever holds the lock can let go of it by its own steps alone, and an edit
  * that nobody disturbs leaves the file as it should and the lock free.
  */
module EditProgress {
  import opened UserConfig
  import opened ConfigEdits
  import opened ConfigInvariant
  import opened SerialEdits
  import Lock = ConfigLock

  /** Where a write may fail; an edit that writes nothing never does. */
  datatype Failure = Never | Creating | WritingFile | Renaming

  lemma {:induction false} Extend(regex: Regex, s: State, run: seq<Action>, a: Action)
    requires Runs(regex, s, run) && Enabled(After(regex, s, run), a)
    ensures Runs(regex, s, run + [a]) && After(regex, s, run + [a]) == Next(regex, After(regex, s, run), a)
    decreases |run|
  {
    hide Enabled, Next;
    if run == [] {
      assert run + [a] == [a] && [a][1..] == [];
    } else {
      Extend(regex, Next(regex, s, run[0]), run[1..], a);
      assert (run + [a])[1..] == run[1..] + [a];
    }
  }

  /** The run with one step more, of `p` alone. */
  lemma Take(regex: Regex, s: State, run: seq<Action>, p: Lock.Pid, a: Action) returns (run': seq<Action>)
    requires Runs(regex, s, run) && OwnSteps(p, run)
    requires StepOf(p, a) && Enabled(After(regex, s, run), a)
    ensures Runs(regex, s, run') && OwnSteps(p, run') && After(regex, s, run') == Next(regex, After(regex, s, run), a)
  {
    hide Enabled, Next, StepOf;
    Extend(regex, s, run, a);
    run' := run + [a];
  }

  lemma Nothing(regex: Regex, s: State, p: Lock.Pid)
    ensures Runs(regex, s, []) && After(regex, s, []) == s && OwnSteps(p, [])
  {
  }

  /** A step of this process. */
  predicate StepOf(p: Lock.Pid, a: Action) {
    if a.Locking? then !a.a.Tick? && a.a.p == p else !a.Open? && !a.Read? && a.p == p
  }

  ghost predicate OwnSteps(p: Lock.Pid, run: seq<Action>) {
    forall a :: a in run ==> StepOf(p, a)
  }

  /** The process holds the lock, and the file at the lock path is its own. */
  predicate Inside(s: State, p: Lock.Pid) {
    Lock.At(s.lock, p).Holding? && Lock.PathNames(s.lock, p) && p in s.work
  }

  /** A configuration path names a file there is. */
  predicate OnDisk(s: State) {
    s.config.Some? ==> s.config.value in s.inodes
  }

  lemma StillUnused(l: Lock.State, p: Lock.Pid, inode: nat)
    requires Lock.Unused(l, inode)
    ensures Lock.Unused(Lock.Move(l, p, Lock.Opening), inode)
  {
    var t := Lock.Move(l, p, Lock.Opening);
    forall q | q in t.procs
      ensures !Lock.HasOpen(Lock.At(t, q), inode)
    {
      assert q != p ==> Lock.At(t, q) == Lock.At(l, q);
    }
  }

  /** A free lock is got. */
  lemma GetsIn(regex: Regex, s: State, p: Lock.Pid, job: Job, inode: nat) returns (run: seq<Action>)
    requires Lock.At(s.lock, p).Idle? && s.lock.file.None? && Lock.Unused(s.lock, inode)
    ensures Runs(regex, s, run) && OwnSteps(p, run)
    ensures var t := After(regex, s, run);
            && Inside(t, p) && t.work == s.work[p := Work(job, s.next, Starting)]
            && t.config == s.config && t.inodes == s.inodes && t.readers == s.readers && t.log == s.log
  {
    Nothing(regex, s, p);
    hide Runs, After, OwnSteps;
    run := Take(regex, s, [], p, Locking(Lock.Begin(p)));
    StillUnused(s.lock, p, inode);
    run := Take(regex, s, run, p, Locking(Lock.Open(p, inode)));
    run := Take(regex, s, run, p, Locking(Lock.Record(p, true)));
    run := Take(regex, s, run, p, Enter(p, job));
  }

  /** What the holder is to do with the file. */
  function ToDo(regex: Regex, s: State, p: Lock.Pid): Outcome
    requires p in s.work
  {
    Perform(s.work[p].job.net, regex, s.work[p].job.edit, Content(s), Content(s))
  }

  /** The edit runs to its end, its write failing at the given place or not at all. */
  predicate Fails(o: Outcome, failure: Failure) {
    match failure
    case Never => false
    case Creating => o.Save? || o.Delete?
    case WritingFile => o.Save?
    case Renaming => o.Save?
  }

  lemma Decides(regex: Regex, s: State, p: Lock.Pid) returns (run: seq<Action>)
    requires Inside(s, p) && s.work[p].phase.Starting?
    ensures Runs(regex, s, run) && OwnSteps(p, run)
    ensures After(regex, s, run) == Phased(s, p, Decided(ToDo(regex, s, p)))
  {
    hide Perform, Content;
    run := Take(regex, s, [], p, ReadFirst(p));
    var t := After(regex, s, run);
    SameContent(s, t);
    run := Take(regex, s, run, p, ReadSecond(p));
    assert t == Phased(s, p, Rereading(Content(s))) && t.work[p].job == s.work[p].job;
    PhasedTwice(s, p, Rereading(Content(s)), Decided(ToDo(regex, s, p)));
  }

  lemma SameContent(s: State, t: State)
    requires s.config == t.config && s.inodes == t.inodes
    ensures Content(s) == Content(t)
  {
  }

  lemma PhasedTwice(s: State, p: Lock.Pid, a: Phase, b: Phase)
    requires p in s.work
    ensures Phased(Phased(s, p, a), p, b) == Phased(s, p, b)
  {
    assert s.work[p := s.work[p].(phase := a)][p := s.work[p].(phase := b)] == s.work[p := s.work[p].(phase := b)];
  }

  lemma Performs(regex: Regex, s: State, p: Lock.Pid, o: Outcome, tmp: nat, failure: Failure) returns (run: seq<Action>)
    requires Inside(s, p) && s.work[p].phase == Decided(o) && OnDisk(s) && tmp !in s.inodes
    ensures Runs(regex, s, run) && OwnSteps(p, run)
    ensures var t := After(regex, s, run);
            && Inside(t, p) && t.work[p].phase.Finished? && t.lock == s.lock && t.readers == s.readers
            && t.log == s.log + [Attempt(s.work[p].job.net, s.work[p].job.edit, !Fails(o, failure))]
            && Content(t) == if Fails(o, failure) then Content(s) else Settled(Content(s), o)
  {
    hide Perform, Lock.Next, Lock.Enabled, StepOf;
    assert StepOf(p, GiveUp(p)) && StepOf(p, WriteError(p)) && StepOf(p, Remove(p)) by {
      StepsOf(p, tmp);
    }
    if o.Save? {
      run := Saves(regex, s, p, o.doc, tmp, failure);
    } else if o.Delete? {
      run := Take(regex, s, [], p, if failure.Creating? then WriteError(p) else Remove(p));
    } else {
      run := Take(regex, s, [], p, GiveUp(p));
    }
  }

  lemma StepsOf(p: Lock.Pid, tmp: nat)
    ensures StepOf(p, GiveUp(p)) && StepOf(p, WriteError(p)) && StepOf(p, Remove(p)) && StepOf(p, Rename(p))
    ensures StepOf(p, CreateTemp(p, tmp)) && StepOf(p, WriteTemp(p))
  {
  }

  lemma Saves(regex: Regex, s: State, p: Lock.Pid, doc: Doc, tmp: nat, failure: Failure) returns (run: seq<Action>)
    requires Inside(s, p) && s.work[p].phase == Decided(Save(doc)) && OnDisk(s) && tmp !in s.inodes
    ensures Runs(regex, s, run) && OwnSteps(p, run)
    ensures var t := After(regex, s, run);
            && Inside(t, p) && t.work[p].phase.Finished? && t.lock == s.lock && t.readers == s.readers
            && t.log == s.log + [Attempt(s.work[p].job.net, s.work[p].job.edit, failure.Never?)]
            && Content(t) == if failure.Never? then Document(doc) else Content(s)
  {
    hide Perform, Lock.Next, Lock.Enabled, StepOf;
    StepsOf(p, tmp);
    Nothing(regex, s, p);
    hide Runs, After, OwnSteps;
    if failure.Creating? {
      run := Take(regex, s, [], p, WriteError(p));
    } else {
      run := Take(regex, s, [], p, CreateTemp(p, tmp));
      if failure.WritingFile? {
        run := Take(regex, s, run, p, WriteError(p));
      } else {
        run := Take(regex, s, run, p, WriteTemp(p));
        run := Take(regex, s, run, p, if failure.Renaming? then WriteError(p) else Rename(p));
      }
    }
  }

  /** Whoever is done lets go of the lock. */
  lemma LetsGo(regex: Regex, s: State, p: Lock.Pid) returns (run: seq<Action>)
    requires Inside(s, p) && s.work[p].phase.Finished?
    ensures Runs(regex, s, run) && OwnSteps(p, run)
    ensures var t := After(regex, s, run);
            && Lock.At(t.lock, p).Idle? && t.lock.file.None? && t.work == s.work - {p}
            && Content(t) == Content(s) && t.readers == s.readers && t.log == s.log
  {
    Nothing(regex, s, p);
    hide Runs, After, OwnSteps;
    run := Take(regex, s, [], p, Locking(Lock.Finish(p)));
    run := Take(regex, s, run, p, Locking(Lock.Confirm(p)));
    run := Take(regex, s, run, p, Locking(Lock.Unlink(p)));
    SameContent(s, After(regex, s, run));
  }

  lemma {:induction false} Concat(regex: Regex, s: State, a: seq<Action>, b: seq<Action>, p: Lock.Pid)
    requires Runs(regex, s, a) && Runs(regex, After(regex, s, a), b) && OwnSteps(p, a) && OwnSteps(p, b)
    ensures Runs(regex, s, a + b) && After(regex, s, a + b) == After(regex, After(regex, s, a), b) && OwnSteps(p, a + b)
    decreases |a|
  {
    hide Enabled, Next, StepOf;
    if a == [] {
      assert a + b == b;
    } else {
      assert forall x :: x in a[1..] ==> x in a;
      Concat(regex, Next(regex, s, a[0]), a[1..], b, p);
      assert (a + b)[1..] == a[1..] + b;
    }
  }

  /**
    * An edit that finds the lock free can run to its end by its own steps alone.  It leaves the
    * file as the edit makes it of what stood there, or as it was if its write fails; it leaves
    * the lock free, an attempt in the log, and the readers alone.
    */
  lemma LoneEditCompletes(regex: Regex, s: State, p: Lock.Pid, job: Job, inode: nat, tmp: nat, failure: Failure)
    returns (run: seq<Action>)
    requires Lock.At(s.lock, p).Idle? && s.lock.file.None? && Lock.Unused(s.lock, inode) && OnDisk(s) && tmp !in s.inodes
    ensures Runs(regex, s, run) && OwnSteps(p, run)
    ensures var t, o := After(regex, s, run), Perform(job.net, regex, job.edit, Content(s), Content(s));
            && Lock.At(t.lock, p).Idle? && t.lock.file.None? && t.readers == s.readers
            && t.log == s.log + [Attempt(job.net, job.edit, !Fails(o, failure))]
            && Content(t) == if Fails(o, failure) then Content(s) else Settled(Content(s), o)
  {
    hide *;
    run := GetsIn(regex, s, p, job, inode);
    var t := After(regex, s, run);
    SameContent(s, t);
    var more := Decides(regex, t, p);
    var o := Perform(job.net, regex, job.edit, Content(s), Content(s));
    DecidedOf(regex, t, p);
    StillOnDisk(s, t);
    var u := Phased(t, p, Decided(o));
    Concat(regex, s, run, more, p);
    run := run + more;
    SameContent(t, u);
    StillOnDisk(t, u);
    more := Performs(regex, u, p, o, tmp, failure);
    Concat(regex, s, run, more, p);
    run := run + more;
    more := LetsGo(regex, After(regex, s, run), p);
    Concat(regex, s, run, more, p);
    run := run + more;
  }

  lemma StillOnDisk(s: State, t: State)
    requires s.config == t.config && s.inodes == t.inodes
    ensures OnDisk(s) ==> OnDisk(t)
  {
  }

  lemma DecidedOf(regex: Regex, s: State, p: Lock.Pid)
    requires Inside(s, p)
    ensures p in s.work
    ensures ToDo(regex, s, p) == Perform(s.work[p].job.net, regex, s.work[p].job.edit, Content(s), Content(s))
    ensures forall o :: var t := Phased(s, p, Decided(o));
              && Inside(t, p) && t.work[p] == s.work[p].(phase := Decided(o))
              && t.config == s.config && t.inodes == s.inodes && t.lock == s.lock && t.readers == s.readers && t.log == s.log
  {
  }
}
