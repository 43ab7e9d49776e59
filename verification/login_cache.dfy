/**
  * The login-config cache: every request looks up its user's config through a cache keyed by
  * the file's modification time and size, while writers replace or delete the file
  * atomically.  Stat, cache lookup, read and store are separate steps of each call, and any
  * number of calls and writes interleave.
  */
module LoginCache {
  import opened Basics

  datatype Meta = Meta(mtime: int, size: nat)

  /** One committed version of the file, with what loading it yields (nothing if it does not parse). */
  datatype Version<C> = Version(meta: Meta, cfg: Option<C>)

  /** Every state the path has been in, oldest first; `None` while there is no file. */
  type History<C> = seq<Option<Version<C>>>

  /**
    * A cache entry.  The code stores `meta` and `cfg` only; `at` and `from` are the positions
    * in the history of the version that was statted and of the version that was read.
    */
  datatype Entry<C> = Entry(meta: Meta, cfg: C, at: nat, from: nat)

  datatype Call<C> =
    | Started(start: nat)
    | Absent(start: nat, at: nat)
    | Statted(start: nat, at: nat, meta: Meta)
    | Missed(start: nat, at: nat, meta: Meta)
    | Loaded(start: nat, at: nat, meta: Meta, cfg: C, from: nat)
    | Returned(start: nat, end: nat, result: Option<C>)

  datatype State<C> = State(history: History<C>, cache: Option<Entry<C>>, calls: map<nat, Call<C>>)

  datatype Action<C> =
    | Write(next: Option<Version<C>>)
    | Start(k: nat)
    | Stat(k: nat)
    | Forget(k: nat)
    | Lookup(k: nat)
    | Load(k: nat)
    | Store(k: nat)

  function Init<C>(first: Option<Version<C>>): State<C> {
    State([first], None, map[])
  }

  function Now<C>(s: State<C>): nat
    requires s.history != []
  {
    |s.history| - 1
  }

  /** What a direct load of the path would give at this version. */
  function Direct<C>(v: Option<Version<C>>): Option<C> {
    if v.Some? then v.value.cfg else None
  }

  predicate Enabled<C>(s: State<C>, a: Action<C>) {
    && s.history != []
    && match a
       case Write(_) => true
       case Start(k) => k !in s.calls
       case Stat(k) => k in s.calls && s.calls[k].Started?
       case Forget(k) => k in s.calls && s.calls[k].Absent?
       case Lookup(k) => k in s.calls && s.calls[k].Statted?
       case Load(k) => k in s.calls && s.calls[k].Missed?
       case Store(k) => k in s.calls && s.calls[k].Loaded?
  }

  function Put<C>(s: State<C>, k: nat, c: Call<C>): State<C> {
    s.(calls := s.calls[k := c])
  }

  function Next<C>(s: State<C>, a: Action<C>): State<C>
    requires Enabled(s, a)
  {
    match a
    case Write(next) => s.(history := s.history + [next])
    case Start(k) => Put(s, k, Started(Now(s)))
    case Stat(k) =>
      var v := s.history[Now(s)];
      if v.None? then Put(s, k, Absent(s.calls[k].start, Now(s)))
      else Put(s, k, Statted(s.calls[k].start, Now(s), v.value.meta))
    case Forget(k) =>
      Put(s, k, Returned(s.calls[k].start, Now(s), None)).(cache := None)
    case Lookup(k) =>
      var c := s.calls[k];
      if s.cache.Some? && s.cache.value.meta == c.meta then
        Put(s, k, Returned(c.start, Now(s), Some(s.cache.value.cfg)))
      else
        Put(s, k, Missed(c.start, c.at, c.meta))
    case Load(k) =>
      var c, got := s.calls[k], Direct(s.history[Now(s)]);
      if got.None? then Put(s, k, Returned(c.start, Now(s), None))
      else Put(s, k, Loaded(c.start, c.at, c.meta, got.value, Now(s)))
    case Store(k) =>
      var c := s.calls[k];
      Put(s, k, Returned(c.start, Now(s), Some(c.cfg))).(cache := Some(Entry(c.meta, c.cfg, c.at, c.from)))
  }

  predicate Runs<C>(s: State<C>, run: seq<Action<C>>)
    decreases |run|
  {
    run == [] || (Enabled(s, run[0]) && Runs(Next(s, run[0]), run[1..]))
  }

  function After<C>(s: State<C>, run: seq<Action<C>>): State<C>
    requires Runs(s, run)
    decreases |run|
  {
    if run == [] then s else After(Next(s, run[0]), run[1..])
  }

  // ---------------------------------------------------------------- linearizability

  /** Some version current between a call's start and its return explains its result. */
  ghost predicate Explained<C(!new)>(h: History<C>, start: nat, end: nat, result: Option<C>) {
    exists i :: start <= i <= end < |h| && Direct(h[i]) == result
  }

  ghost predicate Linearizable<C(!new)>(s: State<C>) {
    forall k :: k in s.calls && s.calls[k].Returned? ==>
      Explained(s.history, s.calls[k].start, s.calls[k].end, s.calls[k].result)
  }

  /** Version `i` and a later version `l` look the same to a cache keyed by time and size. */
  predicate LookAlike<C>(h: History<C>, i: nat, l: nat) {
    i < l < |h| && h[i].Some? && h[l].Some? && h[i].value.meta == h[l].value.meta
  }

  /**
    * The exact demand on the files: between two versions with the same time and size,
    * nothing loads differently from the later one.
    */
  ghost predicate Distinguishable<C(!new)>(h: History<C>) {
    forall i: nat, j: nat, l: nat :: LookAlike(h, i, l) && i <= j < l && Direct(h[j]).Some? ==>
      Direct(h[j]) == Direct(h[l])
  }

  /** The usual case: no two versions share modification time and size. */
  ghost predicate DistinctMetas<C(!new)>(h: History<C>) {
    forall i: nat, l: nat :: !LookAlike(h, i, l)
  }

  lemma DistinctMetasAreDistinguishable<C(!new)>(h: History<C>)
    requires DistinctMetas(h)
    ensures Distinguishable(h)
  {
  }

  /** A cached config was read from a version no older than the one whose time and size key it. */
  predicate EntrySound<C(==)>(h: History<C>, e: Entry<C>) {
    && e.at <= e.from < |h|
    && h[e.at].Some? && h[e.at].value.meta == e.meta
    && Direct(h[e.from]) == Some(e.cfg)
  }

  predicate CallSound<C(==)>(h: History<C>, c: Call<C>) {
    match c
    case Started(start) => start < |h|
    case Absent(start, at) => start <= at < |h| && h[at].None?
    case Statted(start, at, meta) => start <= at < |h| && h[at].Some? && h[at].value.meta == meta
    case Missed(start, at, meta) => start <= at < |h| && h[at].Some? && h[at].value.meta == meta
    case Loaded(start, at, meta, cfg, from) => start <= at && EntrySound(h, Entry(meta, cfg, at, from))
    case Returned(start, end, _) => start <= end < |h|
  }

  /** What the cache and every call know, on any history of the file. */
  ghost predicate Grounded<C(!new)>(s: State<C>) {
    && s.history != []
    && (s.cache.Some? ==> EntrySound(s.history, s.cache.value))
    && (forall k :: k in s.calls ==> CallSound(s.history, s.calls[k]))
  }

  ghost predicate Sound<C(!new)>(s: State<C>) {
    Grounded(s) && Linearizable(s)
  }

  lemma StillExplained<C(!new)>(h: History<C>, next: Option<Version<C>>, start: nat, end: nat, result: Option<C>)
    requires Explained(h, start, end, result)
    ensures Explained(h + [next], start, end, result)
  {
    var i :| start <= i <= end < |h| && Direct(h[i]) == result;
    assert (h + [next])[i] == h[i];
  }

  lemma ExplainedBy<C(!new)>(h: History<C>, i: nat, start: nat, end: nat, result: Option<C>)
    requires start <= i <= end < |h| && Direct(h[i]) == result
    ensures Explained(h, start, end, result)
  {
  }

  /** The heart of the argument: what the cache answers was current during the call. */
  lemma HitIsExplained<C(!new)>(h: History<C>, e: Entry<C>, start: nat, at: nat)
    requires EntrySound(h, e) && Distinguishable(h)
    requires start <= at < |h| && h[at].Some? && h[at].value.meta == e.meta
    ensures Explained(h, start, |h| - 1, Some(e.cfg))
  {
    if at <= e.from {
      ExplainedBy(h, e.from, start, |h| - 1, Some(e.cfg));
    } else {
      assert LookAlike(h, e.at, at);
      ExplainedBy(h, at, start, |h| - 1, Some(e.cfg));
    }
  }

  lemma StepKeepsLinearizable<C(!new)>(s: State<C>, a: Action<C>)
    requires Sound(s) && Enabled(s, a) && Distinguishable(s.history)
    ensures Linearizable(Next(s, a))
  {
    hide Distinguishable;
    var s', h := Next(s, a), s.history;
    forall k | k in s'.calls && s'.calls[k].Returned?
      ensures Explained(s'.history, s'.calls[k].start, s'.calls[k].end, s'.calls[k].result)
    {
      if k in s.calls && s.calls[k].Returned? {
        if a.Write? {
          StillExplained(h, a.next, s.calls[k].start, s.calls[k].end, s.calls[k].result);
        }
      } else {
        var c := s.calls[k];
        match a
        case Forget(_) => ExplainedBy(h, c.at, c.start, Now(s), None);
        case Lookup(_) => HitIsExplained(h, s.cache.value, c.start, c.at);
        case Load(_) => ExplainedBy(h, Now(s), c.start, Now(s), None);
        case Store(_) => ExplainedBy(h, c.from, c.start, Now(s), Some(c.cfg));
      }
    }
  }

  lemma StepKeepsGrounded<C(!new)>(s: State<C>, a: Action<C>)
    requires Grounded(s) && Enabled(s, a)
    ensures Grounded(Next(s, a))
  {
    var s', h := Next(s, a), s.history;
    if a.Write? {
      assert forall i :: 0 <= i < |h| ==> s'.history[i] == h[i];
      forall k | k in s'.calls
        ensures CallSound(s'.history, s'.calls[k])
      {
        assert CallSound(h, s.calls[k]);
      }
    } else {
      assert s'.history == h;
    }
  }

  /**
    * Over every run, whatever the file's versions look like: a cached config was read from a
    * version no older than the one whose time and size key it.
    */
  lemma {:induction false} CacheIsNeverOlder<C(!new)>(s: State<C>, run: seq<Action<C>>)
    requires Grounded(s) && Runs(s, run)
    ensures Grounded(After(s, run))
    ensures var t := After(s, run); t.cache.Some? ==> EntrySound(t.history, t.cache.value)
    decreases |run|
  {
    if run != [] {
      StepKeepsGrounded(s, run[0]);
      CacheIsNeverOlder(Next(s, run[0]), run[1..]);
    }
  }

  lemma StepKeepsSound<C(!new)>(s: State<C>, a: Action<C>)
    requires Sound(s) && Enabled(s, a) && Distinguishable(s.history)
    ensures Sound(Next(s, a))
  {
    hide Distinguishable, Linearizable, Grounded, Enabled, Next;
    StepKeepsLinearizable(s, a);
    StepKeepsGrounded(s, a);
  }

  lemma {:induction false} HistoryGrows<C(!new)>(s: State<C>, run: seq<Action<C>>)
    requires Runs(s, run)
    ensures s.history <= After(s, run).history
    decreases |run|
  {
    if run != [] {
      HistoryGrows(Next(s, run[0]), run[1..]);
    }
  }

  lemma PrefixDistinguishable<C(!new)>(h: History<C>, h': History<C>)
    requires h <= h' && Distinguishable(h')
    ensures Distinguishable(h)
  {
    forall i: nat, j: nat, l: nat | LookAlike(h, i, l) && i <= j < l && Direct(h[j]).Some?
      ensures Direct(h[j]) == Direct(h[l])
    {
      assert LookAlike(h', i, l);
    }
  }

  lemma {:induction false} RunKeepsSound<C(!new)>(s: State<C>, run: seq<Action<C>>)
    requires Sound(s) && Runs(s, run) && Distinguishable(After(s, run).history)
    ensures Sound(After(s, run))
    decreases |run|
  {
    if run != [] {
      HistoryGrows(s, run);
      PrefixDistinguishable(s.history, After(s, run).history);
      StepKeepsSound(s, run[0]);
      RunKeepsSound(Next(s, run[0]), run[1..]);
    }
  }

  // ---------------------------------------------------------------- and the demand is exact

  lemma {:induction false} Extend<C(!new)>(s: State<C>, run: seq<Action<C>>, a: Action<C>)
    requires Runs(s, run) && Enabled(After(s, run), a)
    ensures Runs(s, run + [a]) && After(s, run + [a]) == Next(After(s, run), a)
    decreases |run|
  {
    if run == [] {
      assert [a][1..] == [];
    } else {
      Extend(Next(s, run[0]), run[1..], a);
      assert (run + [a])[1..] == run[1..] + [a];
    }
  }

  lemma Step<C(!new)>(s: State<C>, run: seq<Action<C>>, a: Action<C>)
    returns (run': seq<Action<C>>, t: State<C>)
    requires Runs(s, run) && Enabled(After(s, run), a)
    ensures Runs(s, run') && t == After(s, run') == Next(After(s, run), a)
  {
    Extend(s, run, a);
    run', t := run + [a], Next(After(s, run), a);
  }

  /** Lets the writers bring the file up to version `n` of `h`. */
  lemma {:induction false} WriteUpTo<C(!new)>(s: State<C>, run: seq<Action<C>>, h: History<C>, n: nat)
    returns (run': seq<Action<C>>, t: State<C>)
    requires Runs(s, run) && n < |h|
    requires After(s, run).history != [] && After(s, run).history <= h[..n + 1]
    ensures Runs(s, run') && t == After(s, run')
    ensures t == After(s, run).(history := h[..n + 1])
    decreases n + 1 - |After(s, run).history|
  {
    var m := |After(s, run).history|;
    if m == n + 1 {
      run', t := run, After(s, run);
    } else {
      var run1, t1 := Step(s, run, Write(h[m]));
      assert t1.history == h[..m + 1];
      run', t := WriteUpTo(s, run1, h, n);
    }
  }

  /** One call stats version `i` and misses the empty cache. */
  lemma MissAt<C(!new)>(h: History<C>, i: nat) returns (run: seq<Action<C>>, t: State<C>)
    requires i < |h| && h[i].Some?
    ensures Runs(Init(h[0]), run) && t == After(Init(h[0]), run)
    ensures t == State(h[..i + 1], None, map[0 := Missed(i, i, h[i].value.meta)])
  {
    var s := Init(h[0]);
    run, t := WriteUpTo(s, [], h, i);
    hide Runs, After;
    run, t := Step(s, run, Start(0));
    run, t := Step(s, run, Stat(0));
    run, t := Step(s, run, Lookup(0));
    assert t.calls == map[0 := Missed(i, i, h[i].value.meta)];
  }

  /** One call stats version `i` but reads version `j`, and caches it. */
  lemma CacheLate<C(!new)>(h: History<C>, i: nat, j: nat)
    returns (run: seq<Action<C>>, t: State<C>)
    requires i <= j < |h| && h[i].Some? && Direct(h[j]).Some?
    ensures Runs(Init(h[0]), run) && t == After(Init(h[0]), run)
    ensures t.history == h[..j + 1] && t.calls.Keys == {0}
    ensures t.cache == Some(Entry(h[i].value.meta, Direct(h[j]).value, i, j))
  {
    var s := Init(h[0]);
    run, t := MissAt(h, i);
    run, t := WriteUpTo(s, run, h, j);
    run, t := Step(s, run, Load(0));
    run, t := Step(s, run, Store(0));
  }

  /** A later call then stats the look-alike version `l` and is answered from the cache. */
  lemma StaleHit<C(!new)>(h: History<C>, i: nat, j: nat, l: nat) returns (run: seq<Action<C>>, t: State<C>)
    requires LookAlike(h, i, l) && i <= j < l && Direct(h[j]).Some? && Direct(h[j]) != Direct(h[l])
    ensures Runs(Init(h[0]), run) && t == After(Init(h[0]), run)
    ensures t.history == h && !Linearizable(t)
  {
    var s := Init(h[0]);
    run, t := CacheLate(h, i, j);
    run, t := WriteUpTo(s, run, h, l);
    run, t := Step(s, run, Start(1));
    run, t := Step(s, run, Stat(1));
    run, t := Step(s, run, Lookup(1));
    run, t := WriteUpTo(s, run, h, |h| - 1);
    assert h[..|h|] == h;
    assert t.calls[1] == Returned(l, l, Direct(h[j]));
    assert !Explained(h, l, l, Direct(h[j]));
  }

  /** No run of the given file history can produce a result that was not current during its call. */
  ghost predicate AlwaysLinearizable<C(!new)>(h: History<C>)
    requires h != []
  {
    forall run :: Runs(Init(h[0]), run) && After(Init(h[0]), run).history == h ==>
      Linearizable(After(Init(h[0]), run))
  }

  /**
    * Every interleaving of lookups with the writes that produce history `h` is linearizable
    * (each result, found or not, is that of a version current at some moment of its call)
    * exactly when the versions of `h` are distinguishable by modification time and size.
    */
  lemma LinearizableIffDistinguishable<C(!new)>(h: History<C>)
    requires h != []
    ensures AlwaysLinearizable(h) <==> Distinguishable(h)
  {
    if Distinguishable(h) {
      forall run | Runs(Init(h[0]), run) && After(Init(h[0]), run).history == h
        ensures Linearizable(After(Init(h[0]), run))
      {
        RunKeepsSound(Init(h[0]), run);
      }
    } else {
      var i: nat, j: nat, l: nat :| LookAlike(h, i, l) && i <= j < l && Direct(h[j]).Some?
                                    && Direct(h[j]) != Direct(h[l]);
      var run, t := StaleHit(h, i, j, l);
      assert !Linearizable(After(Init(h[0]), run));
    }
  }
}
