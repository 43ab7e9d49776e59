/**
  * What the failure limiter computes, on values: sliding-window logs per key, pruning, and
  * eviction under a hard cap.  Eviction follows Go's unspecified map iteration order, so its
  * outcome is a relation rather than a function.
  */
module SlidingWindow {
  type Key = string
  type Log = seq<int>
  type Logs = map<Key, Log>

  datatype Params = Params(maxFailures: int, capacity: nat, window: int)

  /** The entries after `cutoff`, in order. */
  function Recent(times: Log, cutoff: int): Log {
    if times == [] then []
    else
      var last := times[|times| - 1];
      Recent(times[..|times| - 1], cutoff) + if last > cutoff then [last] else []
  }

  function LogOf(m: Logs, key: Key): Log {
    if key in m then m[key] else []
  }

  function Pruned(m: Logs, key: Key, cutoff: int): Logs {
    var recent := Recent(LogOf(m, key), cutoff);
    if LogOf(m, key) == [] then m
    else if recent == [] then m - {key}
    else m[key := recent]
  }

  /** Every key pruned at once. */
  function Unexpired(m: Logs, cutoff: int): Logs {
    map k | k in m && Recent(m[k], cutoff) != [] :: Recent(m[k], cutoff)
  }

  /** Every key outside `todo` pruned: how far a sweep has come. */
  function PartlyUnexpired(m: Logs, todo: set<Key>, cutoff: int): Logs {
    map k | k in m && (k in todo || Recent(m[k], cutoff) != []) ::
      if k in todo then m[k] else Recent(m[k], cutoff)
  }

  lemma SweepOneMore(m: Logs, todo: set<Key>, k: Key, cutoff: int)
    requires k in todo && k in m
    ensures var now, next := PartlyUnexpired(m, todo, cutoff), PartlyUnexpired(m, todo - {k}, cutoff);
            var recent := Recent(m[k], cutoff);
            next == if recent == [] then now - {k} else now[k := recent]
  {
  }

  predicate Blocked(p: Params, m: Logs, key: Key) {
    |LogOf(m, key)| >= p.maxFailures
  }

  /** Keys that are evicted only when nothing cheaper is left. */
  predicate Spared(p: Params, m: Logs, protect: Key, key: Key) {
    key == protect || Blocked(p, m, key)
  }

  ghost predicate Submap(m': Logs, m: Logs) {
    m'.Keys <= m.Keys && forall k :: k in m' ==> m'[k] == m[k]
  }

  /** No spared key was evicted. */
  ghost predicate OnlyCheap(p: Params, m: Logs, m': Logs, protect: Key) {
    forall k :: k in m && k !in m' ==> !Spared(p, m, protect, k)
  }

  /** Only spared keys stay. */
  ghost predicate AllSpared(p: Params, m: Logs, m': Logs, protect: Key) {
    forall k :: k in m' ==> Spared(p, m, protect, k)
  }

  /**
    * The eviction outcomes: down to capacity and no further; a spared key goes only when
    * every key that stays is spared, and the protected key only when nothing else is left.
    */
  ghost predicate Evicts(p: Params, m: Logs, m': Logs, protect: Key) {
    && Submap(m', m)
    && |m'| == (if |m| <= p.capacity then |m| else p.capacity)
    && (OnlyCheap(p, m, m', protect) || AllSpared(p, m, m', protect))
    && (protect in m && protect !in m' ==> m' == map[])
  }

  /** A sweep does nothing up to capacity; beyond it, `u` is what is left unexpired. */
  ghost predicate Sweeps(p: Params, m: Logs, u: Logs, m': Logs, protect: Key, cutoff: int) {
    if |m| <= p.capacity then u == m && m' == m
    else u == Unexpired(m, cutoff) && Evicts(p, u, m', protect)
  }

  function Restrict(m: Logs, keys: set<Key>): Logs {
    map k | k in m && k in keys :: m[k]
  }

  /** What three eviction loops add up to: `k1`, `k2`, `k3` are the keys each leaves behind. */
  lemma ThreeLoops(p: Params, m: Logs, k1: set<Key>, k2: set<Key>, k3: set<Key>, protect: Key)
    requires k3 <= k2 <= k1 <= m.Keys
    requires k1 == m.Keys || |k1| >= p.capacity
    requires forall k :: k in m && k !in k1 ==> !Spared(p, m, protect, k)
    requires |k1| > p.capacity ==> forall k :: k in k1 ==> Spared(p, m, protect, k)
    requires k2 == k1 || (|k1| > p.capacity && |k2| >= p.capacity)
    requires protect in k1 ==> protect in k2
    requires |k2| > p.capacity ==> k2 <= {protect}
    requires if |k2| <= p.capacity then k3 == k2 else |k3| == p.capacity
    ensures Evicts(p, m, Restrict(m, k3), protect)
  {
    var m' := Restrict(m, k3);
    assert m'.Keys == k3 && |m'| == |m'.Keys| && |m| == |m.Keys|;
    if |k2| > p.capacity {
      Singleton(k2, protect);
      assert p.capacity == 0 && k3 == {} && m' == map[];
    }
    SubsetSize(k1, m.Keys);
  }

  lemma Singleton(s: set<Key>, k: Key)
    requires s <= {k}
    ensures |s| <= 1
  {
    SubsetSize(s, {k});
  }

  lemma SubsetSize(a: set<Key>, b: set<Key>)
    requires a <= b
    ensures |a| <= |b| && (|a| == |b| ==> a == b)
  {
    assert b == a + (b - a);
    assert |b| == |a| + |b - a|;
  }

  // ---------------------------------------------------------------- facts about windows

  /**
    * Exactly the entries after the cutoff are kept, each once and in order: `at` lists where
    * they stand in the log.
    */
  lemma {:induction false} RecentKeeps(times: Log, cutoff: int) returns (at: seq<nat>)
    ensures forall j :: j in at <==> 0 <= j < |times| && times[j] > cutoff
    ensures forall i :: 0 <= i < |at| ==> at[i] < |times|
    ensures forall i, j :: 0 <= i < j < |at| ==> at[i] < at[j]
    ensures |Recent(times, cutoff)| == |at| && forall i :: 0 <= i < |at| ==> Recent(times, cutoff)[i] == times[at[i]]
  {
    if times == [] {
      at := [];
    } else {
      var n := |times| - 1;
      at := RecentKeeps(times[..n], cutoff);
      if times[n] > cutoff {
        at := at + [n];
      }
    }
  }

  lemma {:induction false} RecentConcat(a: Log, b: Log, cutoff: int)
    ensures Recent(a + b, cutoff) == Recent(a, cutoff) + Recent(b, cutoff)
  {
    if b == [] {
      assert a + b == a;
    } else {
      RecentConcat(a, b[..|b| - 1], cutoff);
      assert (a + b)[..|a + b| - 1] == a + b[..|b| - 1];
    }
  }

  /** Pruning earlier does not matter to a later window. */
  lemma {:induction false} RecentTwice(times: Log, c: int, c': int)
    requires c <= c'
    ensures Recent(Recent(times, c), c') == Recent(times, c')
  {
    if times != [] {
      var init, last := times[..|times| - 1], times[|times| - 1];
      RecentTwice(init, c, c');
      RecentConcat(Recent(init, c), if last > c then [last] else [], c');
      assert last > c ==> [last][..0] == [];
    }
  }

  lemma {:induction false} RecentShrinks(times: Log, c: int, c': int)
    requires c <= c'
    ensures |Recent(times, c')| <= |Recent(times, c)| <= |times|
  {
    if times != [] {
      RecentShrinks(times[..|times| - 1], c, c');
    }
  }
}

/**
  * The failure limiter (a class, as in the source): a map from keys to slices of times.  A
  * slice is a buffer and a length, so that the in-place compaction and the in-place append
  * are those of Go.  Clock readings are parameters, one for each the code takes.
  */
module FailureLimiter {
  import opened SlidingWindow

  datatype Slice = Slice(buf: array<int>, len: nat)

  class Limiter {
    const settings: Params
    var failures: map<Key, Slice>

    ghost var Contents: Logs              // the log of every key, as a value
    ghost var Owner: map<array<int>, Key> // whose log each buffer holds, so that none is shared

    /** Slices fit their own buffers, and together they hold `Contents`. */
    ghost predicate Valid()
      reads this, Owner.Keys
    {
      Contents.Keys == failures.Keys && forall k {:trigger Holds(k)} :: k in failures ==> Holds(k)
    }

    ghost predicate Holds(k: Key)
      requires k in failures && k in Contents
      reads this, Owner.Keys
    {
      var times := failures[k];
      && times.buf in Owner && Owner[times.buf] == k
      && times.len <= times.buf.Length && times.buf[..times.len] == Contents[k]
    }

    constructor (maxFailures: int, capacity: nat, window: int)
      ensures Valid() && Contents == map[] && Owner == map[]
      ensures settings == Params(maxFailures, capacity, window)
    {
      settings := Params(maxFailures, capacity, window);
      this.failures := map[];
      this.Contents := map[];
      this.Owner := map[];
    }

    lemma LengthsAgree()
      requires Valid()
      ensures forall k :: k in failures ==> failures[k].len == |Contents[k]|
      ensures |failures| == |Contents|
    {
      forall k | k in failures
        ensures failures[k].len == |Contents[k]|
      {
        assert Holds(k);
      }
      assert |failures| == |failures.Keys| && |Contents| == |Contents.Keys|;
    }

    /** len(failures) */
    method Size() returns (n: nat)
      requires Valid()
      ensures n == |Contents|
    {
      LengthsAgree();
      n := |failures|;
    }

    /** len(failures[key]) */
    method Count(key: Key) returns (n: nat)
      requires Valid()
      ensures n == |LogOf(Contents, key)|
    {
      LengthsAgree();
      n := if key in failures then failures[key].len else 0;
    }

    /** Filters a slice into its own buffer. */
    static method Compact(times: Slice, cutoff: int) returns (filtered: Slice)
      requires times.len <= times.buf.Length
      modifies times.buf
      ensures filtered.buf == times.buf && filtered.len <= times.len
      ensures filtered.buf[..filtered.len] == Recent(old(times.buf[..times.len]), cutoff)
    {
      var n := 0;
      ghost var before := times.buf[..times.len];
      for i := 0 to times.len
        invariant n <= i
        invariant times.buf[..n] == Recent(before[..i], cutoff)
        invariant forall j :: i <= j < times.len ==> times.buf[j] == before[j]
      {
        assert before[..i + 1][..i] == before[..i];
        var t := times.buf[i];
        if t > cutoff {
          times.buf[n] := t;
          n := n + 1;
        }
      }
      assert before[..times.len] == before;
      filtered := Slice(times.buf, n);
    }

    /** Appends one time, in place while there is room. */
    static method Append(times: Slice, t: int) returns (r: Slice)
      requires times.len <= times.buf.Length
      modifies times.buf
      ensures r.buf == times.buf || fresh(r.buf)
      ensures r.len <= r.buf.Length && r.buf[..r.len] == old(times.buf[..times.len]) + [t]
    {
      if times.len < times.buf.Length {
        ghost var before := times.buf[..times.len];
        times.buf[times.len] := t;
        r := Slice(times.buf, times.len + 1);
        assert r.buf[..r.len] == before + [t];
      } else {
        var bigger := new int[2 * times.len + 1];
        for i := 0 to times.len
          invariant forall j :: 0 <= j < i ==> bigger[j] == times.buf[j]
          invariant times.buf[..] == old(times.buf[..])
        {
          bigger[i] := times.buf[i];
        }
        bigger[times.len] := t;
        r := Slice(bigger, times.len + 1);
        assert r.buf[..r.len] == times.buf[..times.len] + [t];
      }
    }

    /** Filters one key's slice, dropping the key when nothing is left. */
    method FilterKey(key: Key, cutoff: int)
      requires Valid() && key in failures
      modifies this, Owner.Keys
      ensures Valid() && Owner == old(Owner)
      ensures var recent := Recent(old(Contents)[key], cutoff);
              Contents == if recent == [] then old(Contents) - {key} else old(Contents)[key := recent]
    {
      assert Holds(key);
      ghost var recent := Recent(Contents[key], cutoff);
      var filtered := Compact(failures[key], cutoff);
      if filtered.len == 0 {
        failures := failures - {key};
        Contents := Contents - {key};
      } else {
        failures := failures[key := filtered];
        Contents := Contents[key := recent];
      }
      forall k | k in failures
        ensures Holds(k)
      {
        assert old(k in failures && Holds(k));
      }
    }

    method Prune(key: Key, cutoff: int)
      requires Valid()
      modifies this, Owner.Keys
      ensures Valid() && Owner == old(Owner)
      ensures Contents == Pruned(old(Contents), key, cutoff)
    {
      LengthsAgree();
      if key !in failures || failures[key].len == 0 {
        return;
      }
      FilterKey(key, cutoff);
    }

    method SweepExpired(cutoff: int)
      requires Valid()
      modifies this, Owner.Keys
      ensures Valid() && Owner == old(Owner)
      ensures Contents == Unexpired(old(Contents), cutoff)
    {
      ghost var before := Contents;
      var todo := failures.Keys;
      assert Contents == PartlyUnexpired(before, todo, cutoff);
      while todo != {}
        invariant Valid() && Owner == old(Owner)
        invariant todo <= failures.Keys && todo <= before.Keys
        invariant Contents == PartlyUnexpired(before, todo, cutoff)
        decreases todo
      {
        var k :| k in todo;
        SweepOneMore(before, todo, k, cutoff);
        FilterKey(k, cutoff);
        todo := todo - {k};
      }
      assert PartlyUnexpired(before, {}, cutoff) == Unexpired(before, cutoff);
    }

    /** Only deletions happened since `before`. */
    ghost predicate Thinned(before: map<Key, Slice>)
      reads this
    {
      failures.Keys <= before.Keys && forall k :: k in failures ==> failures[k] == before[k]
    }

    /** First loop of the hard cap: unblocked keys other than the protected one. */
    method EvictUnblocked(protectKey: Key) returns (excess: int)
      modifies this`failures
      ensures Thinned(old(failures)) && excess == |failures| - settings.capacity
      ensures failures == old(failures) || excess >= 0
      ensures forall k :: k in old(failures) && k !in failures ==>
                k != protectKey && old(failures)[k].len < settings.maxFailures
      ensures excess > 0 ==> forall k :: k in failures ==> k == protectKey || failures[k].len >= settings.maxFailures
    {
      ghost var before := failures;
      excess := |failures| - settings.capacity;
      var todo := failures.Keys;
      while todo != {} && excess > 0
        invariant Thinned(before) && todo <= failures.Keys && excess == |failures| - settings.capacity
        invariant failures == before || excess >= 0
        invariant forall k :: k in before && k !in failures ==> k != protectKey && before[k].len < settings.maxFailures
        invariant forall k :: k in failures && k !in todo ==> k == protectKey || failures[k].len >= settings.maxFailures
        decreases todo
      {
        var k :| k in todo;
        todo := todo - {k};
        if !(k == protectKey || failures[k].len >= settings.maxFailures) {
          failures := failures - {k};
          excess := excess - 1;
        }
      }
    }

    /** Second loop: any key but the protected one. */
    method EvictUnprotected(protectKey: Key, excess0: int) returns (excess: int)
      requires excess0 == |failures| - settings.capacity
      modifies this`failures
      ensures Thinned(old(failures)) && excess == |failures| - settings.capacity
      ensures failures == old(failures) || (excess0 > 0 && excess >= 0)
      ensures protectKey in old(failures) ==> protectKey in failures
      ensures excess > 0 ==> failures.Keys <= {protectKey}
    {
      ghost var before := failures;
      excess := excess0;
      var todo := failures.Keys;
      while todo != {} && excess > 0
        invariant Thinned(before) && todo <= failures.Keys && excess == |failures| - settings.capacity
        invariant failures == before || (excess0 > 0 && excess >= 0)
        invariant protectKey in before ==> protectKey in failures
        invariant forall k :: k in failures && k !in todo ==> k == protectKey
        decreases todo
      {
        var k :| k in todo;
        todo := todo - {k};
        if k != protectKey {
          failures := failures - {k};
          excess := excess - 1;
        }
      }
    }

    /** Third loop: whatever is left. */
    method EvictAny(excess0: int)
      requires excess0 == |failures| - settings.capacity
      modifies this`failures
      ensures Thinned(old(failures))
      ensures if excess0 <= 0 then failures == old(failures) else |failures| == settings.capacity
    {
      ghost var before := failures;
      var excess := excess0;
      var todo := failures.Keys;
      while todo != {} && excess > 0
        invariant Thinned(before) && todo <= failures.Keys && excess == |failures| - settings.capacity
        invariant failures == before || excess >= 0
        invariant excess > 0 ==> todo == failures.Keys
        invariant excess0 <= 0 ==> failures == before
        decreases todo
      {
        var k :| k in todo;
        todo := todo - {k};
        failures := failures - {k};
        excess := excess - 1;
      }
    }

    /** The hard cap: cheap keys first, the protected key last, in any iteration order. */
    method EvictLoops(protectKey: Key)
      requires Valid()
      modifies this`failures
      ensures Thinned(old(failures))
      ensures Evicts(settings, Contents, Restrict(Contents, failures.Keys), protectKey)
    {
      LengthsAgree();
      assert forall k :: k in failures ==>
        (Spared(settings, Contents, protectKey, k) <==> k == protectKey || failures[k].len >= settings.maxFailures);
      var excess := EvictUnblocked(protectKey);
      ghost var k1 := failures.Keys;
      assert |k1| == |failures|;
      excess := EvictUnprotected(protectKey, excess);
      ghost var k2 := failures.Keys;
      assert |k2| == |failures|;
      EvictAny(excess);
      assert |failures.Keys| == |failures|;
      ThreeLoops(settings, Contents, k1, k2, failures.Keys, protectKey);
    }

    method Evict(protectKey: Key)
      requires Valid()
      modifies this
      ensures Valid() && Owner == old(Owner)
      ensures Evicts(settings, old(Contents), Contents, protectKey)
    {
      hide Evicts, Spared;
      EvictLoops(protectKey);
      Contents := Restrict(Contents, failures.Keys);
      forall k | k in failures
        ensures Holds(k)
      {
        assert old(k in failures && Holds(k));
      }
    }

    method SweepIfLarge(protectKey: Key, now: int) returns (ghost unexpired: Logs)
      requires Valid()
      modifies this, Owner.Keys
      ensures Valid() && Owner == old(Owner)
      ensures Sweeps(settings, old(Contents), unexpired, Contents, protectKey, now - settings.window)
    {
      hide Recent, Evicts, Holds, Unexpired;
      unexpired := Contents;
      var size := Size();
      if size <= settings.capacity {
        return;
      }
      SweepExpired(now - settings.window);
      unexpired := Contents;
      Evict(protectKey);
    }

    method IsBlocked(key: Key, pruneAt: int, sweepAt: int)
      returns (blocked: bool, ghost pruned: Logs, ghost unexpired: Logs)
      requires Valid()
      modifies this, Owner.Keys
      ensures Valid() && Owner == old(Owner)
      ensures pruned == Pruned(old(Contents), key, pruneAt - settings.window)
      ensures Sweeps(settings, pruned, unexpired, Contents, key, sweepAt - settings.window)
      ensures blocked == Blocked(settings, Contents, key)
    {
      hide Recent, Sweeps, Holds, Pruned;
      Prune(key, pruneAt - settings.window);
      pruned := Contents;
      unexpired := SweepIfLarge(key, sweepAt);
      var count := Count(key);
      blocked := count >= settings.maxFailures;
    }

    method RecordFailure(key: Key, pruneAt: int, recordAt: int, sweepAt: int)
      returns (ghost recorded: Logs, ghost unexpired: Logs)
      requires Valid()
      modifies this, Owner.Keys
      ensures Valid() && forall b :: b in Owner && b !in old(Owner) ==> fresh(b)
      ensures var pruned := Pruned(old(Contents), key, pruneAt - settings.window);
              recorded == pruned[key := LogOf(pruned, key) + [recordAt]]
      ensures Sweeps(settings, recorded, unexpired, Contents, key, sweepAt - settings.window)
    {
      hide Recent, Sweeps, Holds, Pruned;
      Prune(key, pruneAt - settings.window);
      AppendTo(key, recordAt);
      recorded := Contents;
      unexpired := SweepIfLarge(key, sweepAt);
    }

    /** failures[key] = append(failures[key], t) */
    method AppendTo(key: Key, t: int)
      requires Valid()
      modifies this, Owner.Keys
      ensures Valid() && forall b :: b in Owner && b !in old(Owner) ==> fresh(b)
      ensures Contents == old(Contents)[key := LogOf(old(Contents), key) + [t]]
    {
      var times;
      if key in failures {
        assert Holds(key);
        times := failures[key];
      } else {
        var empty := new int[0];
        times := Slice(empty, 0);
      }
      times := Append(times, t);
      failures := failures[key := times];
      Contents := Contents[key := LogOf(Contents, key) + [t]];
      Owner := Owner[times.buf := key];
      forall k | k in failures
        ensures Holds(k)
      {
        assert k != key ==> old(k in failures && Holds(k));
      }
    }

    method Reset(key: Key)
      requires Valid()
      modifies this
      ensures Valid() && Owner == old(Owner)
      ensures Contents == old(Contents) - {key}
    {
      failures := failures - {key};
      Contents := Contents - {key};
      forall k | k in failures
        ensures Holds(k)
      {
        assert old(k in failures && Holds(k));
      }
    }
  }
}
