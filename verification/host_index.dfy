/**
  * The virtual-host index: which service a hostname belongs to across all users, which
  * hostnames are claimed more than once, and a registry that keeps the index of its last scan
  * while single users are loaded in between.
  */
module HostIndex {
  import opened Basics
  import opened UserConfig

  type Users = map<string, seq<Service>>

  datatype Target = Target(username: string, service: Service)

  /** The `j`th hostname of a user's `i`th service. */
  datatype Claim = Claim(username: string, i: nat, j: nat)

  predicate IsClaim(users: Users, c: Claim) {
    c.username in users && c.i < |users[c.username]| && c.j < |users[c.username][c.i].hostnames|
  }

  function HostOf(users: Users, c: Claim): string
    requires IsClaim(users, c)
  {
    users[c.username][c.i].hostnames[c.j]
  }

  function TargetOf(users: Users, c: Claim): Target
    requires IsClaim(users, c)
  {
    Target(c.username, users[c.username][c.i])
  }

  function OwnerName(t: Target): string {
    t.username + "/" + t.service.id
  }

  // ---------------------------------------------------------------- sorted lists of names

  /** Byte-wise order. */
  predicate Less(a: string, b: string) {
    b != "" && (a == "" || a[0] < b[0] || (a[0] == b[0] && Less(a[1..], b[1..])))
  }

  lemma {:induction false} LessTotal(a: string, b: string)
    ensures Less(a, b) || a == b || Less(b, a)
    ensures !(Less(a, b) && Less(b, a)) && !(Less(a, b) && a == b)
  {
    if a != "" && b != "" && a[0] == b[0] {
      LessTotal(a[1..], b[1..]);
      assert a[1..] == b[1..] ==> a == b;
      assert a == [a[0]] + a[1..] && b == [b[0]] + b[1..];
    }
  }

  lemma {:induction false} LessTransitive(a: string, b: string, c: string)
    requires Less(a, b) && Less(b, c)
    ensures Less(a, c)
  {
    if a != "" && a[0] == b[0] == c[0] {
      LessTransitive(a[1..], b[1..], c[1..]);
    }
  }

  predicate Ascending(names: seq<string>) {
    forall i, j :: 0 <= i < j < |names| ==> Less(names[i], names[j])
  }

  /** The names in ascending order, each once. */
  ghost predicate SortedList(names: seq<string>, of: set<string>) {
    Ascending(names) && forall n :: n in names <==> n in of
  }

  /** There is only one such list. */
  lemma {:induction false} SortedListIsUnique(a: seq<string>, b: seq<string>, of: set<string>)
    requires SortedList(a, of) && SortedList(b, of)
    ensures a == b
    decreases |a|
  {
    hide Less;
    if a == [] {
      if b != [] {
        FirstIsMember(b, of);
      }
    } else {
      FirstIsMember(a, of);
      FirstIsMember(b, of);
      FirstIsSame(a, b);
      RestIsSorted(a, of);
      RestIsSorted(b, of);
      SortedListIsUnique(a[1..], b[1..], of - {a[0]});
      assert a == [a[0]] + a[1..] && b == [b[0]] + b[1..];
    }
  }

  lemma FirstIsMember(a: seq<string>, of: set<string>)
    requires SortedList(a, of) && a != []
    ensures a[0] in of
  {
  }

  lemma FirstIsSame(a: seq<string>, b: seq<string>)
    requires Ascending(a) && Ascending(b) && a != [] && b != [] && a[0] in b && b[0] in a
    ensures a[0] == b[0]
  {
    LessTotal(a[0], b[0]);
    hide Less;
    var i :| 0 <= i < |b| && b[i] == a[0];
    var j :| 0 <= j < |a| && a[j] == b[0];
  }

  lemma RestIsSorted(a: seq<string>, of: set<string>)
    requires SortedList(a, of) && a != []
    ensures SortedList(a[1..], of - {a[0]})
  {
    hide Less;
    forall n | n in a[1..]
      ensures n in of && n != a[0]
    {
      var i :| 1 <= i < |a| && a[i] == n;
      assert Less(a[0], a[i]);
      LessTotal(a[0], a[0]);
    }
  }

  method InsertName(names: seq<string>, name: string) returns (r: seq<string>)
    requires Ascending(names) && name !in names
    ensures Ascending(r) && forall n :: n in r <==> n in names || n == name
  {
    hide Less;
    var k := 0;
    while k < |names| && Less(names[k], name)
      invariant k <= |names| && forall i :: 0 <= i < k ==> Less(names[i], name)
    {
      k := k + 1;
    }
    if k < |names| {
      LessTotal(names[k], name);
      forall i | k < i < |names|
        ensures Less(name, names[i])
      {
        LessTransitive(name, names[k], names[i]);
      }
    }
    r := names[..k] + [name] + names[k..];
  }

  method SortNames(names: set<string>) returns (sorted: seq<string>)
    ensures SortedList(sorted, names)
  {
    sorted := [];
    var todo := names;
    while todo != {}
      invariant todo <= names && SortedList(sorted, names - todo)
      decreases todo
    {
      var n :| n in todo;
      sorted := InsertName(sorted, n);
      todo := todo - {n};
    }
  }

  // ---------------------------------------------------------------- the index

  /** All claims to one hostname. */
  ghost function Claims(users: Users, host: string): (claims: set<Claim>)
    ensures forall c :: c in claims <==> IsClaim(users, c) && HostOf(users, c) == host
  {
    set u, i: nat, j: nat
      | u in users && 0 <= i < |users[u]| && 0 <= j < |users[u][i].hostnames| && users[u][i].hostnames[j] == host
      :: Claim(u, i, j)
  }

  lemma OneElement(s: set<Claim>, c: Claim, d: Claim)
    requires |s| == 1 && c in s && d in s
    ensures c == d
  {
    assert s == {c} + (s - {c});
    assert |s - {c}| == 0;
  }

  /** Where requests for this hostname go: to the service claiming it, if it is claimed exactly once. */
  ghost function Routed(users: Users, host: string): (t: Option<Target>)
    ensures t.Some? <==> |Claims(users, host)| == 1
    ensures t.Some? ==> forall c :: c in Claims(users, host) ==> t.value == TargetOf(users, c)
  {
    var claims := Claims(users, host);
    if |claims| != 1 then None
    else
      assert claims != {};
      var c :| c in claims;
      assert forall d :: d in claims ==> d == c by {
        forall d | d in claims
          ensures d == c
        {
          OneElement(claims, d, c);
        }
      }
      Some(TargetOf(users, c))
  }

  ghost function Owners(users: Users, claims: set<Claim>): set<string>
    requires forall c :: c in claims ==> IsClaim(users, c)
  {
    set c | c in claims :: OwnerName(TargetOf(users, c))
  }

  /**
    * The index of the users: a hostname is routable if exactly one service claims it, exactly
    * once; otherwise it is listed with all who claim it.
    */
  ghost predicate IsIndex(users: Users, hosts: map<string, Target>, conflicts: map<string, seq<string>>) {
    && (forall h :: h in hosts <==> |Claims(users, h)| == 1)
    && (forall h :: h in conflicts <==> |Claims(users, h)| >= 2)
    && (forall h, c :: h in hosts && c in Claims(users, h) ==> hosts[h] == TargetOf(users, c))
    && (forall h :: h in conflicts ==> SortedList(conflicts[h], Owners(users, Claims(users, h))))
  }

  /** A map's entry for one hostname. */
  function At<T>(m: map<string, T>, h: string): Option<T> {
    if h in m then Some(m[h]) else None
  }

  /** Looking a hostname up in the index is asking where it is routed. */
  lemma IndexRoutes(users: Users, hosts: map<string, Target>, conflicts: map<string, seq<string>>, h: string)
    requires IsIndex(users, hosts, conflicts)
    ensures At(hosts, h) == Routed(users, h)
  {
    hide SortedList, IsClaim;
    if h in hosts {
      assert |Claims(users, h)| == 1;
      var c :| c in Claims(users, h);
    }
  }

  lemma SameTarget(users: Users, h1: map<string, Target>, c1: map<string, seq<string>>,
                   h2: map<string, Target>, c2: map<string, seq<string>>, h: string)
    requires IsIndex(users, h1, c1) && IsIndex(users, h2, c2)
    ensures h in h1 <==> h in h2
    ensures h in h1 ==> h1[h] == h2[h]
  {
    hide SortedList, IsClaim;
    if h in h1 {
      assert |Claims(users, h)| == 1;
      var c :| c in Claims(users, h);
      assert h1[h] == TargetOf(users, c);
      assert h in h2 && h2[h] == TargetOf(users, c);
    }
  }

  lemma SameConflict(users: Users, h1: map<string, Target>, c1: map<string, seq<string>>,
                     h2: map<string, Target>, c2: map<string, seq<string>>, h: string)
    requires IsIndex(users, h1, c1) && IsIndex(users, h2, c2)
    ensures h in c1 <==> h in c2
    ensures h in c1 ==> c1[h] == c2[h]
  {
    hide SortedList, IsClaim;
    if h in c1 {
      assert h in c2;
      SortedListIsUnique(c1[h], c2[h], Owners(users, Claims(users, h)));
    }
  }

  /** The index is a function of the users: it does not depend on the order they are walked in. */
  lemma IndexIsUnique(users: Users, h1: map<string, Target>, c1: map<string, seq<string>>,
                      h2: map<string, Target>, c2: map<string, seq<string>>)
    requires IsIndex(users, h1, c1) && IsIndex(users, h2, c2)
    ensures h1 == h2 && c1 == c2
  {
    hide *;
    forall h
      ensures (h in h1 <==> h in h2) && (h in h1 ==> h1[h] == h2[h])
      ensures (h in c1 <==> h in c2) && (h in c1 ==> c1[h] == c2[h])
    {
      SameTarget(users, h1, c1, h2, c2, h);
      SameConflict(users, h1, c1, h2, c2, h);
    }
  }

  /** Routable and conflicting names are disjoint, and together are all names claimed. */
  lemma EveryNameIsPlaced(users: Users, hosts: map<string, Target>, conflicts: map<string, seq<string>>, h: string)
    requires IsIndex(users, hosts, conflicts)
    ensures !(h in hosts && h in conflicts)
    ensures h in hosts || h in conflicts <==> exists c :: IsClaim(users, c) && HostOf(users, c) == h
  {
    if c :| IsClaim(users, c) && HostOf(users, c) == h {
      assert c in Claims(users, h);
      assert |Claims(users, h)| > 0;
    } else {
      assert Claims(users, h) == {};
    }
  }

  // ---------------------------------------------------------------- building it

  datatype Candidate = Candidate(target: Target, count: nat, owners: set<string>)

  type Candidates = map<string, Candidate>

  ghost predicate AreClaims(users: Users, done: set<Claim>) {
    forall c :: c in done ==> IsClaim(users, c)
  }

  /** Those of the claims counted so far that are to this hostname. */
  ghost function Part(users: Users, done: set<Claim>, host: string): set<Claim>
    requires AreClaims(users, done)
  {
    set c | c in done && HostOf(users, c) == host
  }

  /** What has been counted for one hostname. */
  ghost predicate Counted(users: Users, claims: set<Claim>, found: Option<Candidate>)
    requires AreClaims(users, claims)
  {
    if claims == {} then found.None?
    else
      && found.Some? && found.value.count == |claims| && found.value.owners == Owners(users, claims)
      && exists c :: c in claims && found.value.target == TargetOf(users, c)
  }

  ghost predicate Tallied(users: Users, done: set<Claim>, candidates: Candidates) {
    AreClaims(users, done) && forall h :: Counted(users, Part(users, done, h), At(candidates, h))
  }

  /** Counting one more claim. */
  function Bump(found: Option<Candidate>, t: Target): Candidate {
    if found.None? then Candidate(t, 1, {OwnerName(t)})
    else found.value.(count := found.value.count + 1, owners := found.value.owners + {OwnerName(t)})
  }

  lemma CountOneMore(users: Users, claims: set<Claim>, c: Claim, found: Option<Candidate>)
    requires AreClaims(users, claims) && IsClaim(users, c) && c !in claims && Counted(users, claims, found)
    ensures Counted(users, claims + {c}, Some(Bump(found, TargetOf(users, c))))
  {
    hide IsClaim, OwnerName;
    var more := claims + {c};
    var t := TargetOf(users, c);
    assert Owners(users, more) == Owners(users, claims) + {OwnerName(t)};
    if claims == {} {
      assert c in more;
    } else {
      var d :| d in claims && found.value.target == TargetOf(users, d);
      assert d in more;
    }
  }

  lemma TallyOneMore(users: Users, done: set<Claim>, candidates: Candidates, c: Claim)
    requires Tallied(users, done, candidates) && IsClaim(users, c) && c !in done
    ensures var h := HostOf(users, c);
            Tallied(users, done + {c}, candidates[h := Bump(At(candidates, h), TargetOf(users, c))])
  {
    hide Counted, Bump, IsClaim;
    var host := HostOf(users, c);
    var after := candidates[host := Bump(At(candidates, host), TargetOf(users, c))];
    assert AreClaims(users, done + {c});
    forall h
      ensures Counted(users, Part(users, done + {c}, h), At(after, h))
    {
      assert Counted(users, Part(users, done, h), At(candidates, h));
      if h == host {
        assert Part(users, done + {c}, h) == Part(users, done, h) + {c};
        CountOneMore(users, Part(users, done, h), c, At(candidates, h));
      } else {
        assert Part(users, done + {c}, h) == Part(users, done, h);
      }
    }
  }

  lemma NothingTallied(users: Users)
    ensures Tallied(users, {}, map[])
  {
  }

  method CountHostnames(users: Users, username: string, i: nat, candidates: Candidates, ghost done: set<Claim>)
    returns (after: Candidates, ghost done': set<Claim>)
    requires username in users && i < |users[username]| && Tallied(users, done, candidates)
    requires forall c :: c in done && c.username == username ==> c.i < i
    ensures Tallied(users, done', after)
    ensures forall c :: c in done' <==> c in done || (IsClaim(users, c) && c.username == username && c.i == i)
  {
    hide Tallied;
    after, done' := candidates, done;
    var svc := users[username][i];
    for j := 0 to |svc.hostnames|
      invariant Tallied(users, done', after)
      invariant forall c :: c in done' <==> c in done || (c.username == username && c.i == i && c.j < j)
    {
      var host, target := svc.hostnames[j], Target(username, svc);
      TallyOneMore(users, done', after, Claim(username, i, j));
      after := after[host := Bump(At(after, host), target)];
      done' := done' + {Claim(username, i, j)};
    }
  }

  method CountServices(users: Users, username: string, candidates: Candidates, ghost done: set<Claim>)
    returns (after: Candidates, ghost done': set<Claim>)
    requires username in users && Tallied(users, done, candidates)
    requires forall c :: c in done ==> c.username != username
    ensures Tallied(users, done', after)
    ensures forall c :: c in done' <==> c in done || (IsClaim(users, c) && c.username == username)
  {
    hide Tallied;
    after, done' := candidates, done;
    for i := 0 to |users[username]|
      invariant Tallied(users, done', after)
      invariant forall c :: c in done' <==> c in done || (IsClaim(users, c) && c.username == username && c.i < i)
    {
      after, done' := CountHostnames(users, username, i, after, done');
    }
  }

  method CountAll(users: Users) returns (candidates: Candidates, ghost done: set<Claim>)
    ensures Tallied(users, done, candidates) && forall c :: c in done <==> IsClaim(users, c)
  {
    hide Tallied;
    candidates, done := map[], {};
    NothingTallied(users);
    var todo := users.Keys;
    while todo != {}
      invariant todo <= users.Keys && Tallied(users, done, candidates)
      invariant forall c :: c in done <==> IsClaim(users, c) && c.username !in todo
      decreases todo
    {
      var username :| username in todo;
      candidates, done := CountServices(users, username, candidates, done);
      todo := todo - {username};
    }
  }

  lemma PartIsClaims(users: Users, done: set<Claim>, h: string)
    requires AreClaims(users, done) && forall c :: c in done <==> IsClaim(users, c)
    ensures Part(users, done, h) == Claims(users, h)
  {
  }

  /** What the tally says of one hostname once everything is counted. */
  lemma CountedAll(users: Users, done: set<Claim>, candidates: Candidates, h: string)
    requires Tallied(users, done, candidates) && forall c :: c in done <==> IsClaim(users, c)
    ensures AreClaims(users, Claims(users, h)) && Counted(users, Claims(users, h), At(candidates, h))
  {
    hide Counted, IsClaim, At;
    PartIsClaims(users, done, h);
    assert Counted(users, Part(users, done, h), At(candidates, h));
  }

  /** One entry of the index. */
  ghost predicate Placed(users: Users, h: string, target: Option<Target>, owners: Option<seq<string>>) {
    && (target.Some? <==> |Claims(users, h)| == 1) && (owners.Some? <==> |Claims(users, h)| >= 2)
    && (target.Some? ==> forall c :: c in Claims(users, h) ==> target.value == TargetOf(users, c))
    && (owners.Some? ==> SortedList(owners.value, Owners(users, Claims(users, h))))
  }

  lemma PlacedIsIndex(users: Users, hosts: map<string, Target>, conflicts: map<string, seq<string>>)
    requires forall h :: Placed(users, h, At(hosts, h), At(conflicts, h))
    ensures IsIndex(users, hosts, conflicts)
  {
    hide SortedList, IsClaim;
    forall h
      ensures (h in hosts <==> |Claims(users, h)| == 1) && (h in conflicts <==> |Claims(users, h)| >= 2)
      ensures h in hosts ==> forall c :: c in Claims(users, h) ==> hosts[h] == TargetOf(users, c)
      ensures h in conflicts ==> SortedList(conflicts[h], Owners(users, Claims(users, h)))
    {
      assert Placed(users, h, At(hosts, h), At(conflicts, h));
    }
  }

  lemma PlaceOne(users: Users, h: string, found: Option<Candidate>, owners: seq<string>)
    requires AreClaims(users, Claims(users, h)) && Counted(users, Claims(users, h), found)
    requires found.Some? && found.value.count != 1 ==> SortedList(owners, found.value.owners)
    ensures Placed(users, h,
                   if found.Some? && found.value.count == 1 then Some(found.value.target) else None,
                   if found.Some? && found.value.count != 1 then Some(owners) else None)
  {
    hide SortedList, IsClaim, Owners;
    if found.Some? && found.value.count == 1 {
      var d :| d in Claims(users, h) && found.value.target == TargetOf(users, d);
      forall c | c in Claims(users, h)
        ensures c == d
      {
        OneElement(Claims(users, h), c, d);
      }
    }
  }

  method BuildHostIndex(users: Users) returns (hosts: map<string, Target>, conflicts: map<string, seq<string>>)
    ensures IsIndex(users, hosts, conflicts)
  {
    hide Tallied, Placed, Counted, SortedList, IsClaim;
    var candidates, done := CountAll(users);
    hosts, conflicts := map[], map[];
    var todo := candidates.Keys;
    while todo != {}
      invariant todo <= candidates.Keys
      invariant forall h :: h in hosts || h in conflicts <==> h in candidates && h !in todo
      invariant forall h :: h in candidates && h !in todo ==> Placed(users, h, At(hosts, h), At(conflicts, h))
      decreases todo
    {
      var h :| h in todo;
      var c := candidates[h];
      CountedAll(users, done, candidates, h);
      if c.count == 1 {
        hosts := hosts[h := c.target];
        PlaceOne(users, h, Some(c), []);
      } else {
        var owners := SortNames(c.owners);
        conflicts := conflicts[h := owners];
        PlaceOne(users, h, Some(c), owners);
      }
      todo := todo - {h};
    }
    forall h
      ensures Placed(users, h, At(hosts, h), At(conflicts, h))
    {
      if h !in candidates {
        CountedAll(users, done, candidates, h);
        PlaceOne(users, h, None, []);
      }
    }
    PlacedIsIndex(users, hosts, conflicts);
  }
}
