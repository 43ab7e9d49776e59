/**
  * Concurrent edits of one configuration file: any number of processes take the lock, read
  * the file, write a temporary file and rename it into place, while readers that take no lock
  * open and read the file at any moment.  Every process may crash between any two steps.
  */
module SerialEdits {
  import opened Basics
  import opened UserConfig
  import opened ConfigEdits
  import opened ConfigInvariant
  import Lock = ConfigLock

  datatype Job = Job(net: Net, edit: Edit)

  /** Where the holder of the lock stands; the comments give what it does next. */
  datatype Phase =
    | Starting                          // first read
    | Rereading(first: File)            // second read (edits that read once ignore it)
    | Decided(o: Outcome)               // create the temporary file, or remove the file, or give up
    | Writing(doc: Doc, tmp: nat)       // write and sync the temporary file
    | Written(doc: Doc, tmp: nat)       // rename it into place
    | Finished                          // release the lock

  datatype Work = Work(job: Job, ticket: nat, phase: Phase)

  /** A reader opens the file, then reads it; `since` counts the commits made when it did. */
  datatype Reader =
    | Opened(inode: nat, since: nat)
    | Saw(file: File, since: nat)

  /**
    * `config` is the inode at the configuration path, `inodes` what each inode holds.  The log
    * records what was attempted, in the order of the commits; `tickets` numbers the entries
    * by when their process entered the critical section.
    */
  datatype State = State(
    lock: Lock.State, work: map<Lock.Pid, Work>, config: Option<nat>, inodes: map<nat, File>,
    readers: map<nat, Reader>, log: seq<Attempt>, tickets: seq<nat>, next: nat)

  datatype Action =
    | Locking(a: Lock.Action)
    | Enter(p: Lock.Pid, job: Job)
    | ReadFirst(p: Lock.Pid)
    | ReadSecond(p: Lock.Pid)
    | GiveUp(p: Lock.Pid)
    | CreateTemp(p: Lock.Pid, inode: nat)
    | WriteTemp(p: Lock.Pid)
    | Rename(p: Lock.Pid)
    | Remove(p: Lock.Pid)
    | WriteError(p: Lock.Pid)
    | Open(r: nat)
    | Read(r: nat)

  /** What a read of the configuration path gives. */
  function Content(s: State): File {
    if s.config.Some? && s.config.value in s.inodes then s.inodes[s.config.value] else Missing
  }

  predicate InPhase(s: State, p: Lock.Pid, ok: Phase -> bool) {
    Lock.At(s.lock, p).Holding? && p in s.work && ok(s.work[p].phase)
  }

  predicate Enabled(s: State, a: Action) {
    match a
    case Locking(b) =>
      && Lock.Enabled(s.lock, b)
      && !(b.StatOwn? && b.ok)
      && (b.Finish? ==> InPhase(s, b.p, (ph: Phase) => ph.Finished?))
    case Enter(p, _) => Lock.Enabled(s.lock, Lock.StatOwn(p, true))
    case ReadFirst(p) => InPhase(s, p, (ph: Phase) => ph.Starting?)
    case ReadSecond(p) => InPhase(s, p, (ph: Phase) => ph.Rereading?)
    case GiveUp(p) => InPhase(s, p, (ph: Phase) => ph.Decided? && (ph.o.Fail? || ph.o.Panic?))
    case CreateTemp(p, inode) => InPhase(s, p, (ph: Phase) => ph.Decided? && ph.o.Save?) && inode !in s.inodes
    case WriteTemp(p) => InPhase(s, p, (ph: Phase) => ph.Writing?)
    case Rename(p) => InPhase(s, p, (ph: Phase) => ph.Written?)
    case Remove(p) => InPhase(s, p, (ph: Phase) => ph.Decided? && ph.o.Delete?)
    case WriteError(p) =>
      InPhase(s, p, (ph: Phase) => ph.Writing? || ph.Written? || (ph.Decided? && (ph.o.Save? || ph.o.Delete?)))
    case Open(r) => r !in s.readers
    case Read(r) => r in s.readers && s.readers[r].Opened?
  }

  function Phased(s: State, p: Lock.Pid, phase: Phase): State
    requires p in s.work
  {
    s.(work := s.work[p := s.work[p].(phase := phase)])
  }

  /** The edit of `p` is over; `written` says whether its write, if it had one, took place. */
  function Logged(s: State, p: Lock.Pid, written: bool): State
    requires p in s.work
  {
    var w := s.work[p];
    Phased(s, p, Finished).(
      log := s.log + [Attempt(w.job.net, w.job.edit, written)],
      tickets := s.tickets + [w.ticket])
  }

  function Next(regex: Regex, s: State, a: Action): State
    requires Enabled(s, a)
  {
    match a
    case Locking(b) =>
      var s' := s.(lock := Lock.Next(s.lock, b));
      if b.Die? || b.Finish? then s'.(work := s.work - {b.p}) else s'
    case Enter(p, job) =>
      s.(lock := Lock.Next(s.lock, Lock.StatOwn(p, true)), work := s.work[p := Work(job, s.next, Starting)],
         next := s.next + 1)
    case ReadFirst(p) => Phased(s, p, Rereading(Content(s)))
    case ReadSecond(p) =>
      var w := s.work[p];
      Phased(s, p, Decided(Perform(w.job.net, regex, w.job.edit, w.phase.first, Content(s))))
    case GiveUp(p) => Logged(s, p, true)
    case CreateTemp(p, inode) =>
      Phased(s, p, Writing(s.work[p].phase.o.doc, inode)).(inodes := s.inodes[inode := Garbled])
    case WriteTemp(p) =>
      var ph := s.work[p].phase;
      Phased(s, p, Written(ph.doc, ph.tmp)).(inodes := s.inodes[ph.tmp := Document(ph.doc)])
    case Rename(p) => Logged(s, p, true).(config := Some(s.work[p].phase.tmp))
    case Remove(p) => Logged(s, p, true).(config := None)
    case WriteError(p) => Logged(s, p, false)
    case Open(r) =>
      if s.config.Some? then s.(readers := s.readers[r := Opened(s.config.value, |s.log|)])
      else s.(readers := s.readers[r := Saw(Missing, |s.log|)])
    case Read(r) =>
      var inode := s.readers[r].inode;
      s.(readers := s.readers[r := Saw(if inode in s.inodes then s.inodes[inode] else Missing, s.readers[r].since)])
  }

  /** The file starts out as `first`, in inode 0 unless it is missing. */
  function Init(first: File): State {
    State(Lock.Init(), map[], if first.Missing? then None else Some(0), map[0 := first], map[], [], [], 0)
  }

  predicate Runs(regex: Regex, s: State, run: seq<Action>)
    decreases |run|
  {
    run == [] || (Enabled(s, run[0]) && Runs(regex, Next(regex, s, run[0]), run[1..]))
  }

  function After(regex: Regex, s: State, run: seq<Action>): State
    requires Runs(regex, s, run)
    decreases |run|
  {
    if run == [] then s else After(regex, Next(regex, s, run[0]), run[1..])
  }

  // ---------------------------------------------------------------- the serial run

  /** The file after the first `n` attempts of the log, run one after the other. */
  function Serial(regex: Regex, first: File, log: seq<Attempt>, n: nat): File
    requires n <= |log|
  {
    AfterAll(regex, log[..n], first)
  }

  predicate Increasing(tickets: seq<nat>) {
    forall i, j :: 0 <= i < j < |tickets| ==> tickets[i] < tickets[j]
  }

  /** What each stage of an edit knows. */
  predicate PhaseSound(regex: Regex, s: State, w: Work) {
    var o := Perform(w.job.net, regex, w.job.edit, Content(s), Content(s));
    match w.phase
    case Starting => true
    case Rereading(first) => first == Content(s)
    case Decided(o') => o' == o
    case Writing(doc, tmp) => o == Save(doc) && tmp in s.inodes
    case Written(doc, tmp) => o == Save(doc) && tmp in s.inodes && s.inodes[tmp] == Document(doc)
    case Finished => true
  }

  /** The temporary file of an edit is not yet open to anyone else. */
  predicate Private(s: State, phase: Phase) {
    phase.Writing? || phase.Written? ==>
      && s.config != Some(phase.tmp)
      && forall r :: r in s.readers && s.readers[r].Opened? ==> s.readers[r].inode != phase.tmp
  }

  ghost predicate WorkSound(regex: Regex, s: State, p: Lock.Pid)
    requires p in s.work
  {
    var w := s.work[p];
    && Lock.At(s.lock, p).Holding?
    && PhaseSound(regex, s, w) && Private(s, w.phase)
    && w.ticket < s.next
    && (!w.phase.Finished? ==> forall i :: 0 <= i < |s.tickets| ==> s.tickets[i] < w.ticket)
  }

  /** A reader holds, or has read, one committed version of the file. */
  predicate ReaderSound(regex: Regex, first: File, s: State, r: nat)
    requires r in s.readers
  {
    match s.readers[r]
    case Opened(inode, n) => n <= |s.log| && inode in s.inodes && s.inodes[inode] == Serial(regex, first, s.log, n)
    case Saw(file, n) => n <= |s.log| && file == Serial(regex, first, s.log, n)
  }

  ghost predicate Tickets(s: State) {
    |s.tickets| == |s.log| && Increasing(s.tickets) && forall i :: 0 <= i < |s.tickets| ==> s.tickets[i] < s.next
  }

  ghost predicate DiskSound(regex: Regex, first: File, s: State) {
    (s.config.Some? ==> s.config.value in s.inodes) && Content(s) == AfterAll(regex, s.log, first)
  }

  ghost predicate WorkersSound(regex: Regex, s: State) {
    forall p :: p in s.work ==> WorkSound(regex, s, p)
  }

  ghost predicate ReadersSound(regex: Regex, first: File, s: State) {
    forall r :: r in s.readers ==> ReaderSound(regex, first, s, r)
  }

  ghost predicate Inv(regex: Regex, first: File, s: State) {
    && Lock.Owned(s.lock) && Tickets(s)
    && DiskSound(regex, first, s) && WorkersSound(regex, s) && ReadersSound(regex, first, s)
  }

  lemma {:induction false} OneMore(regex: Regex, log: seq<Attempt>, a: Attempt, first: File)
    ensures AfterAll(regex, log + [a], first) == AfterAttempt(regex, a, AfterAll(regex, log, first))
    decreases |log|
  {
    hide AfterAttempt;
    if log == [] {
      assert (log + [a])[1..] == [];
    } else {
      OneMore(regex, log[1..], a, AfterAttempt(regex, log[0], first));
      assert (log + [a])[1..] == log[1..] + [a];
    }
  }

  /** The worker whose step this is, if it is a step on the file. */
  predicate WorksOn(a: Action) {
    !(a.Locking? || a.Enter? || a.Open? || a.Read?)
  }

  lemma OnlyWorker(regex: Regex, s: State, p: Lock.Pid, q: Lock.Pid)
    requires Lock.Owned(s.lock) && WorkersSound(regex, s) && p in s.work && q in s.work
    ensures p == q
  {
    Lock.OwnedGivesMutualExclusion(s.lock);
    hide PhaseSound, Private, Lock.Owned;
    assert WorkSound(regex, s, p) && WorkSound(regex, s, q);
  }

  lemma NoOtherHolds(l: Lock.State, p: Lock.Pid, q: Lock.Pid)
    requires Lock.Owned(l) && Lock.At(l, p).Recorded?
    ensures !Lock.At(l, q).Holding?
  {
    assert Lock.PathNames(l, p);
    assert Lock.At(l, q).Holding? ==> Lock.PathNames(l, q);
  }

  lemma NobodyInside(regex: Regex, s: State, p: Lock.Pid)
    requires Lock.Owned(s.lock) && WorkersSound(regex, s) && Lock.Enabled(s.lock, Lock.StatOwn(p, true))
    ensures s.work == map[]
  {
    hide PhaseSound, Private, Lock.Owned;
    if q :| q in s.work {
      assert WorkSound(regex, s, q);
      NoOtherHolds(s.lock, p, q);
    }
  }

  predicate StepHarmless(s: State, a: Action) {
    a.Locking? ==> Lock.Harmless(s.lock, a.a)
  }

  lemma KeepsOwned(regex: Regex, s: State, a: Action)
    requires Lock.Owned(s.lock) && Enabled(s, a) && StepHarmless(s, a)
    ensures Lock.Owned(Next(regex, s, a).lock)
  {
    hide Lock.Owned, Lock.Next, Lock.Enabled, Lock.Harmless, Perform, Content;
    if a.Locking? {
      Lock.StepKeepsOwned(s.lock, a.a);
    } else if a.Enter? {
      HarmlessEntry(s.lock, a.p);
      Lock.StepKeepsOwned(s.lock, Lock.StatOwn(a.p, true));
    }
  }

  lemma HarmlessEntry(l: Lock.State, p: Lock.Pid)
    ensures Lock.Harmless(l, Lock.StatOwn(p, true))
  {
  }

  /** What the worker about to take a step on the file knows. */
  lemma WorkerKnows(regex: Regex, s: State, p: Lock.Pid)
    requires WorkersSound(regex, s) && p in s.work
    ensures PhaseSound(regex, s, s.work[p]) && Private(s, s.work[p].phase)
    ensures s.work[p].ticket < s.next
    ensures !s.work[p].phase.Finished? ==> forall i :: 0 <= i < |s.tickets| ==> s.tickets[i] < s.work[p].ticket
  {
    assert WorkSound(regex, s, p);
    hide PhaseSound, Private;
  }

  lemma KeepsTickets(regex: Regex, s: State, a: Action)
    requires Tickets(s) && WorkersSound(regex, s) && Enabled(s, a)
    ensures Tickets(Next(regex, s, a))
  {
    hide WorkersSound, Perform, Content, Lock.Next, Lock.Enabled, Lock.At;
    if WorksOn(a) {
      WorkerKnows(regex, s, a.p);
    }
    hide PhaseSound, Private;
  }

  /** A commit is the serial run's next step. */
  lemma CommitsSerially(regex: Regex, first: File, s: State, p: Lock.Pid, written: bool)
    requires DiskSound(regex, first, s) && p in s.work
    ensures var w := s.work[p];
            AfterAll(regex, Logged(s, p, written).log, first) ==
            if written then Settled(Content(s), Perform(w.job.net, regex, w.job.edit, Content(s), Content(s)))
            else Content(s)
  {
    hide AfterAll, Perform, Content, Settled;
    var w := s.work[p];
    OneMore(regex, s.log, Attempt(w.job.net, w.job.edit, written), first);
  }

  lemma KeepsDisk(regex: Regex, first: File, s: State, a: Action)
    requires DiskSound(regex, first, s) && WorkersSound(regex, s) && Enabled(s, a)
    ensures DiskSound(regex, first, Next(regex, s, a))
  {
    hide WorkersSound, Perform, Lock.Next, Lock.Enabled, Lock.At, AfterAll;
    if WorksOn(a) {
      WorkerKnows(regex, s, a.p);
      CommitsSerially(regex, first, s, a.p, !a.WriteError?);
    }
  }

  lemma KeepsReader(regex: Regex, first: File, s: State, a: Action, r: nat)
    requires DiskSound(regex, first, s) && WorkersSound(regex, s) && Enabled(s, a)
    requires r in s.readers && ReaderSound(regex, first, s, r)
    ensures ReaderSound(regex, first, Next(regex, s, a), r)
  {
    hide WorkersSound, Perform, Lock.Next, Lock.Enabled, Lock.At, AfterAll, Content;
    var s', n := Next(regex, s, a), s.readers[r].since;
    assert s'.log[..n] == s.log[..n];
    if WorksOn(a) {
      WorkerKnows(regex, s, a.p);
    }
  }

  lemma NewReader(regex: Regex, first: File, s: State, r: nat)
    requires DiskSound(regex, first, s) && Enabled(s, Open(r))
    ensures ReaderSound(regex, first, Next(regex, s, Open(r)), r)
  {
    hide Lock.Next, Lock.Enabled, AfterAll;
    assert s.log[..|s.log|] == s.log;
  }

  lemma KeepsReaders(regex: Regex, first: File, s: State, a: Action)
    requires DiskSound(regex, first, s) && WorkersSound(regex, s) && Enabled(s, a)
    requires ReadersSound(regex, first, s)
    ensures ReadersSound(regex, first, Next(regex, s, a))
  {
    hide WorkersSound, DiskSound, ReaderSound, Perform, Lock.Next, Lock.Enabled, Lock.At, AfterAll, Content;
    var s' := Next(regex, s, a);
    forall r | r in s'.readers
      ensures ReaderSound(regex, first, s', r)
    {
      if r in s.readers {
        KeepsReader(regex, first, s, a, r);
      } else {
        NewReader(regex, first, s, r);
      }
    }
  }

  /** Steps of the lock leave whoever is inside alone. */
  lemma LockingKeepsWorker(regex: Regex, s: State, b: Lock.Action, q: Lock.Pid)
    requires Enabled(s, Locking(b)) && q in s.work && WorkSound(regex, s, q)
    requires q in Next(regex, s, Locking(b)).work
    ensures WorkSound(regex, Next(regex, s, Locking(b)), q)
  {
    hide Perform;
  }

  lemma ReaderKeepsWorker(regex: Regex, s: State, a: Action, q: Lock.Pid)
    requires Enabled(s, a) && (a.Open? || a.Read?) && q in s.work && WorkSound(regex, s, q)
    ensures WorkSound(regex, Next(regex, s, a), q)
  {
    hide Perform, Lock.At, Lock.Next, Lock.Enabled;
  }

  lemma EnteringWorker(regex: Regex, s: State, p: Lock.Pid, job: Job)
    requires Enabled(s, Enter(p, job)) && Tickets(s)
    ensures WorkSound(regex, Next(regex, s, Enter(p, job)), p)
  {
    hide Perform;
  }

  lemma CreatingWorker(regex: Regex, first: File, s: State, p: Lock.Pid, inode: nat)
    requires Enabled(s, CreateTemp(p, inode)) && WorkersSound(regex, s)
    requires ReadersSound(regex, first, s) && DiskSound(regex, first, s)
    ensures WorkSound(regex, Next(regex, s, CreateTemp(p, inode)), p)
  {
    hide Perform, WorkersSound, AfterAll, Lock.Next, Lock.Enabled, Lock.At, Serial;
    WorkerKnows(regex, s, p);
    assert forall r :: r in s.readers ==> ReaderSound(regex, first, s, r);
  }

  lemma WorkingWorker(regex: Regex, s: State, a: Action)
    requires Enabled(s, a) && WorksOn(a) && !a.CreateTemp? && WorkersSound(regex, s) && Tickets(s)
    ensures WorkSound(regex, Next(regex, s, a), a.p)
  {
    hide Perform, WorkersSound, Lock.Next, Lock.Enabled, Lock.At;
    WorkerKnows(regex, s, a.p);
  }

  lemma KeepsWorkers(regex: Regex, first: File, s: State, a: Action)
    requires Inv(regex, first, s) && Enabled(s, a)
    ensures WorkersSound(regex, Next(regex, s, a))
  {
    hide DiskSound, WorkSound, ReadersSound, Tickets, Perform, Lock.Owned, Lock.Next, Lock.Enabled, Lock.At, Content;
    var s' := Next(regex, s, a);
    forall q | q in s'.work
      ensures WorkSound(regex, s', q)
    {
      if a.Locking? {
        LockingKeepsWorker(regex, s, a.a, q);
      } else if a.Enter? {
        NobodyInside(regex, s, a.p);
        EnteringWorker(regex, s, a.p, a.job);
      } else if WorksOn(a) {
        OnlyWorker(regex, s, a.p, q);
        if a.CreateTemp? {
          CreatingWorker(regex, first, s, a.p, a.inode);
        } else {
          WorkingWorker(regex, s, a);
        }
      } else {
        ReaderKeepsWorker(regex, s, a, q);
      }
    }
  }

  lemma StepKeepsInv(regex: Regex, first: File, s: State, a: Action)
    requires Inv(regex, first, s) && Enabled(s, a) && StepHarmless(s, a)
    ensures Inv(regex, first, Next(regex, s, a))
  {
    hide Lock.Owned, Tickets, DiskSound, WorkersSound, ReadersSound, Enabled, Next, StepHarmless;
    KeepsOwned(regex, s, a);
    KeepsTickets(regex, s, a);
    KeepsDisk(regex, first, s, a);
    KeepsReaders(regex, first, s, a);
    KeepsWorkers(regex, first, s, a);
  }

  // ---------------------------------------------------------------- every interleaving

  predicate AllHarmless(regex: Regex, s: State, run: seq<Action>)
    requires Runs(regex, s, run)
    decreases |run|
  {
    run != [] ==> StepHarmless(s, run[0]) && AllHarmless(regex, Next(regex, s, run[0]), run[1..])
  }

  lemma InitInv(regex: Regex, first: File)
    ensures Inv(regex, first, Init(first))
  {
  }

  lemma {:induction false} RunKeepsInv(regex: Regex, first: File, s: State, run: seq<Action>)
    requires Inv(regex, first, s) && Runs(regex, s, run) && AllHarmless(regex, s, run)
    ensures Inv(regex, first, After(regex, s, run))
    decreases |run|
  {
    hide Inv, Enabled, Next, StepHarmless;
    if run != [] {
      StepKeepsInv(regex, first, s, run[0]);
      RunKeepsInv(regex, first, Next(regex, s, run[0]), run[1..]);
    }
  }

  lemma InvMeans(regex: Regex, first: File, s: State)
    requires Inv(regex, first, s)
    ensures Content(s) == AfterAll(regex, s.log, first)
    ensures |s.tickets| == |s.log| && Increasing(s.tickets)
    ensures forall r :: r in s.readers && s.readers[r].Saw? ==>
              s.readers[r].since <= |s.log| && s.readers[r].file == AfterAll(regex, s.log[..s.readers[r].since], first)
  {
    hide Lock.Owned, WorkersSound, AfterAll, Content;
    forall r | r in s.readers && s.readers[r].Saw?
      ensures s.readers[r].since <= |s.log| && s.readers[r].file == AfterAll(regex, s.log[..s.readers[r].since], first)
    {
      assert ReaderSound(regex, first, s, r);
    }
  }

  /**
    * Every interleaving is a serial run: as long as no reclaim removes a live process's lock,
    * the file always holds what the logged edits would have made of it one after the other,
    * in the order in which their processes entered the critical section (so no update is
    * lost); and a reader without the lock sees exactly the version committed when it opened
    * the file, whichever writers crashed or failed on the way.
    */
  lemma EveryInterleavingIsSerial(regex: Regex, first: File, run: seq<Action>)
    requires Runs(regex, Init(first), run) && AllHarmless(regex, Init(first), run)
    ensures var s := After(regex, Init(first), run);
            && Content(s) == AfterAll(regex, s.log, first)
            && |s.tickets| == |s.log| && Increasing(s.tickets)
            && forall r :: r in s.readers && s.readers[r].Saw? ==>
                 && s.readers[r].since <= |s.log|
                 && s.readers[r].file == AfterAll(regex, s.log[..s.readers[r].since], first)
  {
    hide *;
    InitInv(regex, first);
    RunKeepsInv(regex, first, Init(first), run);
    InvMeans(regex, first, After(regex, Init(first), run));
  }

  /** So the invariant of single edits holds in every interleaving, for readers too. */
  lemma EveryInterleavingKeepsGood(regex: Regex, first: File, run: seq<Action>)
    requires GoodFile(regex, first)
    requires Runs(regex, Init(first), run) && AllHarmless(regex, Init(first), run)
    ensures var s := After(regex, Init(first), run);
            && GoodFile(regex, Content(s))
            && forall r :: r in s.readers && s.readers[r].Saw? ==> GoodFile(regex, s.readers[r].file)
  {
    hide *;
    EveryInterleavingIsSerial(regex, first, run);
    var s := After(regex, Init(first), run);
    EveryRunKeepsGood(regex, s.log, first);
    forall r | r in s.readers && s.readers[r].Saw?
      ensures GoodFile(regex, s.readers[r].file)
    {
      EveryRunKeepsGood(regex, s.log[..s.readers[r].since], first);
    }
  }

  // ---------------------------------------------------------------- which runs are harmless

  /** The run as the lock sees it. */
  function LockSteps(run: seq<Action>): seq<Lock.Action> {
    if run == [] then []
    else
      (if run[0].Locking? then [run[0].a] else if run[0].Enter? then [Lock.StatOwn(run[0].p, true)] else [])
      + LockSteps(run[1..])
  }

  lemma StepProjects(regex: Regex, s: State, a: Action)
    requires Enabled(s, a)
    ensures if a.Locking? then Lock.Enabled(s.lock, a.a) && Next(regex, s, a).lock == Lock.Next(s.lock, a.a)
            else if a.Enter? then Lock.Enabled(s.lock, Lock.StatOwn(a.p, true))
                                  && Next(regex, s, a).lock == Lock.Next(s.lock, Lock.StatOwn(a.p, true))
            else Next(regex, s, a).lock == s.lock
  {
    hide Lock.Enabled, Lock.Next, Lock.At, Perform, Content;
  }

  /**
    * The lock protocol is used exactly as analysed on its own: the lock's part of a run is a
    * run of the lock, and if its reclaims are harmless there, they are harmless here.
    */
  lemma {:induction false} LockRunsHere(regex: Regex, s: State, run: seq<Action>)
    requires Runs(regex, s, run)
    ensures Lock.Runs(s.lock, LockSteps(run))
    ensures After(regex, s, run).lock == Lock.After(s.lock, LockSteps(run))
    ensures Lock.AllSteps(s.lock, LockSteps(run), Lock.Harmless) ==> AllHarmless(regex, s, run)
    decreases |run|
  {
    hide Enabled, Next, Lock.Enabled, Lock.Next, Lock.Harmless;
    if run != [] {
      StepProjects(regex, s, run[0]);
      LockRunsHere(regex, Next(regex, s, run[0]), run[1..]);
      if run[0].Locking? || run[0].Enter? {
        assert LockSteps(run)[1..] == LockSteps(run[1..]);
      } else {
        assert LockSteps(run) == LockSteps(run[1..]);
      }
    }
  }

  /** In particular: if no lock is ever judged stale, every interleaving is a serial run. */
  lemma NoVerdictIsSerial(regex: Regex, first: File, run: seq<Action>)
    requires Runs(regex, Init(first), run)
    requires Lock.Runs(Lock.Init(), LockSteps(run)) && Lock.AllSteps(Lock.Init(), LockSteps(run), Lock.NoVerdict)
    ensures var s := After(regex, Init(first), run);
            Content(s) == AfterAll(regex, s.log, first) && Increasing(s.tickets) && |s.tickets| == |s.log|
  {
    InitLock(first);
    hide *;
    Lock.InitReclaims();
    Lock.NoVerdictsAreHarmless(Lock.Init(), LockSteps(run));
    LockRunsHere(regex, Init(first), run);
    EveryInterleavingIsSerial(regex, first, run);
  }

  lemma InitLock(first: File)
    ensures Init(first).lock == Lock.Init()
  {
  }
}
