/**
  * The user registry: the users of the last scan, users loaded on demand since, and the host
  * index of the last scan.
  */
module HostRegistry {
  import opened Basics
  import opened Text
  import opened ServicePaths
  import opened UserConfig
  import opened HostIndex

  /** A directory entry, with what loading it as a configuration yields. */
  datatype Entry = Entry(name: string, isDir: bool, loaded: Option<seq<Service>>)

  /** The username an entry stands for, if it is a configuration that loads. */
  function UserOf(e: Entry): Option<string> {
    var username := TrimSuffix(e.name, ".yaml");
    if e.isDir || !HasSuffix(e.name, ".yaml") || !IsValidUsername(username) || e.loaded.None? then None
    else Some(username)
  }

  function Scan(entries: seq<Entry>): Users {
    if entries == [] then map[]
    else
      var before, last := Scan(entries[..|entries| - 1]), entries[|entries| - 1];
      if UserOf(last).None? then before else before[UserOf(last).value := last.loaded.value]
  }

  class Registry {
    var users: Users
    var hosts: map<string, Target>
    var conflicts: map<string, seq<string>>
    ghost var scanned: Users

    /** The index is that of the last scan; users loaded since do not displace scanned ones. */
    ghost predicate Valid()
      reads this
    {
      && IsIndex(scanned, hosts, conflicts)
      && forall u :: u in scanned ==> u in users && users[u] == scanned[u]
    }

    constructor ()
      ensures Valid() && scanned == map[] && users == map[]
    {
      users, hosts, conflicts, scanned := map[], map[], map[], map[];
      new;
      assert forall h :: Claims(scanned, h) == {};
    }

    method ScanEntries(entries: seq<Entry>) returns (found: Users)
      ensures found == Scan(entries)
    {
      hide IsValidUsername, HasSuffix, TrimSuffix;
      found := map[];
      for i := 0 to |entries|
        invariant found == Scan(entries[..i])
      {
        assert entries[..i + 1][..i] == entries[..i];
        var e := entries[i];
        if e.isDir || !HasSuffix(e.name, ".yaml") {
          continue;
        }
        var username := TrimSuffix(e.name, ".yaml");
        if !IsValidUsername(username) || e.loaded.None? {
          continue;
        }
        found := found[username := e.loaded.value];
      }
      assert entries[..|entries|] == entries;
    }

    /** Swaps in a complete scan; an unreadable directory (`None`) leaves everything as it is. */
    method Reload(entries: Option<seq<Entry>>)
      requires Valid()
      modifies this
      ensures Valid()
      ensures if entries.None? then users == old(users) && scanned == old(scanned)
              else users == scanned == Scan(entries.value)
      ensures entries.None? ==> hosts == old(hosts) && conflicts == old(conflicts)
    {
      hide IsIndex;
      if entries.None? {
        return;
      }
      var found := ScanEntries(entries.value);
      var newHosts, newConflicts := BuildHostIndex(found);
      users, hosts, conflicts, scanned := found, newHosts, newConflicts, found;
    }

    /** The user's services, loaded on demand when the scan has not seen them. */
    method GetUser(username: string, loaded: Option<seq<Service>>) returns (services: Option<seq<Service>>)
      requires Valid()
      modifies this`users
      ensures Valid() && hosts == old(hosts) && conflicts == old(conflicts) && scanned == old(scanned)
      ensures services == if username in old(users) then Some(old(users)[username])
                          else if IsValidUsername(username) then loaded else None
      ensures users == if username in old(users) || services.None? then old(users) else old(users)[username := services.value]
    {
      hide IsIndex, IsValidUsername;
      if username in users {
        return Some(users[username]);
      }
      if !IsValidUsername(username) || loaded.None? {
        return None;
      }
      users := users[username := loaded.value];
      services := loaded;
    }

    /** A name is routed if and only if one service of the last scan claims it, once. */
    method FindByHost(host: string) returns (target: Option<Target>)
      requires Valid()
      ensures target == Routed(scanned, host)
      ensures target.Some? ==> target.value.username in users && target.value.service in users[target.value.username]
    {
      hide SortedList;
      target := At(hosts, host);
      IndexRoutes(scanned, hosts, conflicts, host);
      if target.Some? {
        ghost var c :| c in Claims(scanned, host);
      }
    }

    /** Whoever claims a name, but for one service: one entry for each service, sorted. */
    method HostOwners(host: string, exceptUser: string, exceptId: string) returns (owners: seq<string>)
      ensures forall o :: multiset(owners)[o] == |Holders(users, host, exceptUser, exceptId, o)|
      ensures forall o :: o in owners <==> exists c :: OtherClaim(users, host, exceptUser, exceptId, c, o)
      ensures NeverDescends(owners)
    {
      hide Named, Less;
      owners := [];
      var todo := users.Keys;
      ghost var done: set<Holder> := {};
      NobodyNamed(users);
      while todo != {}
        invariant todo <= users.Keys
        invariant forall h :: h in done <==> Holds(users, host, exceptUser, exceptId, h) && h.username !in todo
        invariant forall o :: multiset(owners)[o] == |Named(users, done, o)|
        decreases todo
      {
        var u :| u in todo;
        owners, done := OwnersOf(users, u, host, exceptUser, exceptId, owners, done);
        todo := todo - {u};
      }
      forall o
        ensures multiset(owners)[o] == |Holders(users, host, exceptUser, exceptId, o)|
        ensures o in owners <==> exists c :: OtherClaim(users, host, exceptUser, exceptId, c, o)
      {
        AllNamed(users, host, exceptUser, exceptId, done, o);
        HoldersClaim(users, host, exceptUser, exceptId, o);
        assert o in owners <==> o in multiset(owners);
      }
      ghost var unsorted := owners;
      owners := Sorted(owners);
      assert forall o :: o in owners <==> o in multiset(owners);
      assert forall o :: o in unsorted <==> o in multiset(unsorted);
    }
  }

  /** A claim by any service but the one excepted, and its owner's name. */
  ghost predicate OtherClaim(users: Users, host: string, exceptUser: string, exceptId: string, c: Claim, owner: string) {
    && c in Claims(users, host) && !(c.username == exceptUser && users[c.username][c.i].id == exceptId)
    && owner == OwnerName(TargetOf(users, c))
  }

  /** The `i`th service of a user. */
  datatype Holder = Holder(username: string, i: nat)

  predicate IsService(users: Users, h: Holder) {
    h.username in users && h.i < |users[h.username]|
  }

  function NameOf(users: Users, h: Holder): string
    requires IsService(users, h)
  {
    OwnerName(Target(h.username, users[h.username][h.i]))
  }

  /** The service has this hostname, and is not the one excepted. */
  predicate Holds(users: Users, host: string, exceptUser: string, exceptId: string, h: Holder) {
    && IsService(users, h) && host in users[h.username][h.i].hostnames
    && !(h.username == exceptUser && users[h.username][h.i].id == exceptId)
  }

  /** The services that have this hostname, and this owner's name. */
  ghost function Holders(users: Users, host: string, exceptUser: string, exceptId: string, o: string): (hs: set<Holder>)
    ensures forall h :: h in hs <==> Holds(users, host, exceptUser, exceptId, h) && NameOf(users, h) == o
  {
    set u, i: nat
      | u in users && 0 <= i < |users[u]| && Holds(users, host, exceptUser, exceptId, Holder(u, i))
        && NameOf(users, Holder(u, i)) == o
      :: Holder(u, i)
  }

  /** Those of the services that have this owner's name. */
  ghost function Named(users: Users, done: set<Holder>, o: string): set<Holder> {
    set h | h in done && IsService(users, h) && NameOf(users, h) == o
  }

  lemma NobodyNamed(users: Users)
    ensures forall o :: |Named(users, {}, o)| == 0
  {
  }

  lemma NamedOneMore(users: Users, done: set<Holder>, h: Holder, o: string)
    requires IsService(users, h) && h !in done
    ensures |Named(users, done + {h}, o)| == |Named(users, done, o)| + if NameOf(users, h) == o then 1 else 0
  {
    hide IsService, NameOf;
    if NameOf(users, h) == o {
      assert Named(users, done + {h}, o) == Named(users, done, o) + {h};
    } else {
      assert Named(users, done + {h}, o) == Named(users, done, o);
    }
  }

  lemma AllNamed(users: Users, host: string, exceptUser: string, exceptId: string, done: set<Holder>, o: string)
    requires forall h :: h in done <==> Holds(users, host, exceptUser, exceptId, h)
    ensures Named(users, done, o) == Holders(users, host, exceptUser, exceptId, o)
  {
  }

  lemma HoldersClaim(users: Users, host: string, exceptUser: string, exceptId: string, o: string)
    ensures |Holders(users, host, exceptUser, exceptId, o)| > 0 <==>
            exists c :: OtherClaim(users, host, exceptUser, exceptId, c, o)
  {
    var hs := Holders(users, host, exceptUser, exceptId, o);
    if hs != {} {
      var h :| h in hs;
      var svc := users[h.username][h.i];
      var j :| 0 <= j < |svc.hostnames| && svc.hostnames[j] == host;
      assert OtherClaim(users, host, exceptUser, exceptId, Claim(h.username, h.i, j), o);
    }
    if c :| OtherClaim(users, host, exceptUser, exceptId, c, o) {
      assert Holder(c.username, c.i) in hs;
    }
  }

  method OwnersOf(users: Users, u: string, host: string, exceptUser: string, exceptId: string,
                  before: seq<string>, ghost done: set<Holder>)
    returns (owners: seq<string>, ghost done': set<Holder>)
    requires u in users && forall h :: h in done ==> h.username != u
    requires forall o :: multiset(before)[o] == |Named(users, done, o)|
    ensures forall o :: multiset(owners)[o] == |Named(users, done', o)|
    ensures forall h :: h in done' <==> h in done || (Holds(users, host, exceptUser, exceptId, h) && h.username == u)
  {
    hide Named;
    owners, done' := before, done;
    for i := 0 to |users[u]|
      invariant forall o :: multiset(owners)[o] == |Named(users, done', o)|
      invariant forall h :: h in done' <==>
                  h in done || (Holds(users, host, exceptUser, exceptId, h) && h.username == u && h.i < i)
    {
      var svc := users[u][i];
      if !(u == exceptUser && svc.id == exceptId) && host in svc.hostnames {
        forall o
          ensures multiset(owners + [u + "/" + svc.id])[o] == |Named(users, done' + {Holder(u, i)}, o)|
        {
          NamedOneMore(users, done', Holder(u, i), o);
        }
        owners, done' := owners + [u + "/" + svc.id], done' + {Holder(u, i)};
      }
    }
  }

  // ---------------------------------------------------------------- sorting names

  predicate NeverDescends(names: seq<string>) {
    forall i, j :: 0 <= i < j < |names| ==> !Less(names[j], names[i])
  }

  lemma NotLessTransitive(a: string, b: string, c: string)
    requires !Less(b, a) && !Less(c, b)
    ensures !Less(c, a)
  {
    hide Less;
    LessTotal(a, b);
    LessTotal(b, c);
    LessTotal(a, c);
    if Less(c, a) && Less(a, b) {
      LessTransitive(c, a, b);
    }
  }

  method Insert(names: seq<string>, name: string) returns (r: seq<string>)
    requires NeverDescends(names)
    ensures NeverDescends(r) && multiset(r) == multiset(names) + multiset{name}
  {
    hide Less;
    var k := 0;
    while k < |names| && !Less(name, names[k])
      invariant k <= |names| && forall i :: 0 <= i < k ==> !Less(name, names[i])
    {
      k := k + 1;
    }
    if k < |names| {
      LessTotal(name, names[k]);
      forall i | k < i < |names|
        ensures !Less(names[i], name)
      {
        NotLessTransitive(name, names[k], names[i]);
      }
    }
    r := names[..k] + [name] + names[k..];
    assert names == names[..k] + names[k..];
  }

  method Sorted(names: seq<string>) returns (r: seq<string>)
    ensures NeverDescends(r) && multiset(r) == multiset(names)
  {
    r := [];
    for i := 0 to |names|
      invariant NeverDescends(r) && multiset(r) == multiset(names[..i])
    {
      assert names[..i + 1] == names[..i] + [names[i]];
      r := Insert(r, names[i]);
    }
    assert names[..|names|] == names;
  }

  // ---------------------------------------------------------------- what a scan finds

  /** A file, not a directory, named after a valid username, that loads. */
  predicate StandsFor(e: Entry, username: string) {
    !e.isDir && e.name == username + ".yaml" && IsValidUsername(username) && e.loaded.Some?
  }

  lemma UserOfIff(e: Entry, username: string)
    ensures UserOf(e) == Some(username) <==> StandsFor(e, username)
  {
    hide IsValidUsername;
    assert (username + ".yaml")[|username|..] == ".yaml" && (username + ".yaml")[..|username|] == username;
    if HasSuffix(e.name, ".yaml") {
      assert e.name == e.name[..|e.name| - 5] + ".yaml";
    }
  }

  /** The users found are those with such a file; of several the last in the listing counts. */
  lemma {:induction false} ScanFinds(entries: seq<Entry>, username: string)
    ensures username in Scan(entries) <==> exists e :: e in entries && StandsFor(e, username)
    ensures forall k :: 0 <= k < |entries| && StandsFor(entries[k], username)
                        && (forall j :: k < j < |entries| ==> !StandsFor(entries[j], username)) ==>
              Scan(entries)[username] == entries[k].loaded.value
  {
    hide UserOf, StandsFor;
    if entries != [] {
      var init, last := entries[..|entries| - 1], entries[|entries| - 1];
      ScanFinds(init, username);
      UserOfIff(last, username);
      assert forall e :: e in entries <==> e in init || e == last;
      assert forall j :: 0 <= j < |init| ==> init[j] == entries[j];
    }
  }

  /** A conflict names the user and the service apart. */
  lemma OwnerIsTold(t: Target)
    requires IsValidUsername(t.username)
    ensures var at := Find(OwnerName(t), '/');
            OwnerName(t)[..at] == t.username && at < |OwnerName(t)| && OwnerName(t)[at + 1..] == t.service.id
  {
    assert '/' !in t.username;
    FindAt(t.username, t.service.id, '/');
  }

  // ---------------------------------------------------------------- a validated name is routable

  /** The users after one service's hostnames are replaced. */
  function WithHostnames(users: Users, u: string, k: nat, hostnames: seq<string>): Users
    requires u in users && k < |users[u]|
  {
    users[u := users[u][k := users[u][k].(hostnames := hostnames)]]
  }

  lemma OthersUnchanged(users: Users, u: string, k: nat, hostnames: seq<string>, host: string, c: Claim)
    requires u in users && k < |users[u]| && (c.username != u || c.i != k)
    requires c in Claims(WithHostnames(users, u, k, hostnames), host)
    ensures c in Claims(users, host)
  {
  }

  /**
    * What validation is for: a name nobody else owns becomes routable to the service that
    * takes it.
    */
  lemma FreeNameBecomesRoutable(users: Users, u: string, k: nat, hostnames: seq<string>, host: string)
    requires u in users && k < |users[u]| && Distinct(hostnames) && host in hostnames
    requires forall c :: c in Claims(users, host) ==> c.username == u && c.i == k
    ensures |Claims(WithHostnames(users, u, k, hostnames), host)| == 1
  {
    var after := WithHostnames(users, u, k, hostnames);
    var j :| 0 <= j < |hostnames| && hostnames[j] == host;
    forall c
      ensures c in Claims(after, host) <==> c == Claim(u, k, j)
    {
      if c in Claims(after, host) && (c.username != u || c.i != k) {
        OthersUnchanged(users, u, k, hostnames, host, c);
      }
    }
    assert Claims(after, host) == {Claim(u, k, j)};
  }
}
