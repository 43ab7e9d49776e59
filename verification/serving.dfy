/**
  * A whole request: the Host header is looked up in the host index of the last scan before
  * anything else is asked of it.  What the gateway answers depends on other users' hostnames
  * through this lookup, and on nothing else of theirs but the corner `Decisions` describes.
  */
module Serving {
  import opened Basics
  import opened Hostnames
  import opened UserConfig
  import opened HostIndex
  import opened Routing
  import opened Decisions

  /** The registry as one request sees it: its users, and the services its last scan has seen. */
  datatype View = View(reg: Registry, scan: Users)

  /** Scanned users are registered with what was scanned; hostnames were normalized on load. */
  ghost predicate Coherent(v: View) {
    && (forall u :: u in v.scan ==> u in v.reg && v.reg[u].services == v.scan[u])
    && (forall u, s :: u in v.scan && s in v.scan[u] ==> NormalList(s.hostnames))
  }

  ghost function TargetFor(v: View, header: string): Option<Target> {
    var host := HostFromHostPort(header);
    if host == "" then None else Routed(v.scan, host)
  }

  ghost function Serve(v: View, header: string, s: Session, r: Request): Decision {
    Decide(v.reg, TargetFor(v, header), s, r)
  }

  // ---------------------------------------------------------------- isolation

  lemma TargetIsScanned(v: View, header: string)
    requires Coherent(v) && TargetFor(v, header).Some?
    ensures var t := TargetFor(v, header).value;
            && t.service in ServicesOf(v.reg, t.username)
            && t.username in v.scan && t.service in v.scan[t.username] && HostFromHostPort(header) in t.service.hostnames
  {
    hide HostFromHostPort;
    var host := HostFromHostPort(header);
    var claims := Claims(v.scan, host);
    assert claims != {};
    var c :| c in claims;
    assert TargetFor(v, header).value == TargetOf(v.scan, c) && HostOf(v.scan, c) == host;
  }

  /**
    * Isolation: whatever the registry, the Host, the session and the request, a request is
    * forwarded only under a valid session and only to a service of that session's user.
    */
  lemma EveryForwardIsOwn(v: View, header: string, s: Session, r: Request)
    requires Coherent(v)
    ensures Own(v.reg, s, Serve(v, header, s, r))
  {
    if TargetFor(v, header).Some? {
      TargetIsScanned(v, header);
    }
    DecisionIsOwn(v.reg, TargetFor(v, header), s, r);
    hide Own, Decide, TargetFor, Coherent;
  }

  // ---------------------------------------------------------------- strangers

  /** Some service has this Host to itself. */
  ghost predicate Hosted(v: View, header: string) {
    TargetFor(v, header).Some?
  }

  /**
    * Without a session a request tells one thing about the configurations: whether its Host
    * is claimed exactly once.  Whatever else differs, the answer is the same.
    */
  lemma StrangersSeeOnlyHosts(a: View, b: View, header: string, s: Session, r: Request)
    requires !LoggedIn(s)
    ensures Serve(a, header, s, r) == Serve(b, header, s, r) <==> (Hosted(a, header) <==> Hosted(b, header))
  {
    PathsTellStrangersNothing(a.reg, b.reg, s, r);
    hide Mux, TargetFor;
  }

  // ---------------------------------------------------------------- users

  /** A user's own claims to the Host, and everybody else's. */
  ghost function OwnClaims(v: View, header: string, user: string): set<Claim> {
    set c | c in Claims(v.scan, HostFromHostPort(header)) && c.username == user
  }

  ghost function OtherClaims(v: View, header: string, user: string): set<Claim> {
    set c | c in Claims(v.scan, HostFromHostPort(header)) && c.username != user
  }

  lemma ClaimsAdd(v: View, header: string, user: string)
    ensures |Claims(v.scan, HostFromHostPort(header))| == |OwnClaims(v, header, user)| + |OtherClaims(v, header, user)|
  {
    hide HostFromHostPort, IsClaim;
    var claims := Claims(v.scan, HostFromHostPort(header));
    assert claims == OwnClaims(v, header, user) + OtherClaims(v, header, user);
  }

  /** Only normal names are ever claimed; the empty one is not. */
  lemma ClaimedIsNormal(v: View, host: string)
    requires Coherent(v) && Claims(v.scan, host) != {}
    ensures IsNormal(host) && host != ""
  {
    var c :| c in Claims(v.scan, host);
    assert v.scan[c.username][c.i] in v.scan[c.username];
    hide IsLabel, IsIPv4, Forbidden, Folded;
  }

  /**
    * What a user gets on a Host, by who claims it: a virtual host if the user's service is the
    * only one, "not found" if it is somebody else's alone, and otherwise what the path says.
    */
  lemma ClaimsDecide(v: View, header: string, s: Session, r: Request)
    requires Coherent(v) && LoggedIn(s)
    ensures var own, others := OwnClaims(v, header, s.user), OtherClaims(v, header, s.user);
            && (|own| + |others| != 1 ==> Serve(v, header, s, r) == Mux(v.reg, s, r))
            && (own == {} && |others| == 1 ==> Serve(v, header, s, r) == Refuse(404))
            && (|own| == 1 && others == {} ==>
                  exists svc :: s.user in v.scan && svc in v.scan[s.user] && HostFromHostPort(header) in svc.hostnames
                                && Serve(v, header, s, r) == VirtualHost(Target(s.user, svc), s, r))
  {
    hide HostFromHostPort, Mux;
    ClaimsAdd(v, header, s.user);
    var host := HostFromHostPort(header);
    var claims := Claims(v.scan, host);
    if |claims| == 1 {
      assert claims != {};
      ClaimedIsNormal(v, host);
      TargetIsScanned(v, header);
      var c :| c in claims;
      assert TargetFor(v, header) == Some(TargetOf(v.scan, c));
      if c.username == s.user {
        assert c in OwnClaims(v, header, s.user);
        assert v.scan[c.username][c.i] in v.scan[s.user];
      } else {
        assert c in OtherClaims(v, header, s.user);
      }
    }
  }

  /** The views differ at most in other users. */
  ghost predicate SameOwn(a: View, b: View, user: string) {
    Agree(a.reg, b.reg, user) && (user in a.scan <==> user in b.scan)
  }

  lemma SameOwnClaims(a: View, b: View, header: string, user: string)
    requires Coherent(a) && Coherent(b) && SameOwn(a, b, user)
    ensures OwnClaims(a, header, user) == OwnClaims(b, header, user)
    ensures user in a.scan ==> a.scan[user] == b.scan[user]
  {
    hide HostFromHostPort;
  }

  /** Neither path nor Referer names another user under whose name this user has a legacy match. */
  predicate PathsClear(reg: Registry, s: Session, r: Request) {
    Clear(reg, s.user, r.path) && Clear(reg, s.user, r.refPath)
  }

  lemma PathsAgree(a: View, b: View, s: Session, r: Request)
    requires LoggedIn(s) && SameOwn(a, b, s.user) && PathsClear(a.reg, s, r)
    ensures Mux(a.reg, s, r) == Mux(b.reg, s, r)
  {
    hide Mux, Agree, Clear;
    MuxAgrees(a.reg, b.reg, s, r);
  }

  /**
    * Other users stay hidden: as long as none of them claims the Host, what a user gets depends
    * on no other user's configuration, unless the path or the Referer names another user whose
    * name is also the first element of one of the user's own service paths.
    */
  lemma OthersStayHidden(a: View, b: View, header: string, s: Session, r: Request)
    requires Coherent(a) && Coherent(b) && SameOwn(a, b, s.user)
    requires LoggedIn(s) && PathsClear(a.reg, s, r)
    requires OtherClaims(a, header, s.user) == OtherClaims(b, header, s.user) == {}
    ensures Serve(a, header, s, r) == Serve(b, header, s, r)
  {
    hide *;
    SameOwnClaims(a, b, header, s.user);
    PathsAgree(a, b, s, r);
    ClaimsAdd(a, header, s.user);
    ClaimsAdd(b, header, s.user);
    if |OwnClaims(a, header, s.user)| == 1 {
      SameTargets(a, b, header, s);
      ServeByTarget(a, b, header, s, r);
    } else {
      ClaimsDecide(a, header, s, r);
      ClaimsDecide(b, header, s, r);
    }
  }

  lemma SameTargets(a: View, b: View, header: string, s: Session)
    requires Coherent(a) && Coherent(b) && SameOwn(a, b, s.user)
    requires |OwnClaims(a, header, s.user)| == 1
    requires OtherClaims(a, header, s.user) == OtherClaims(b, header, s.user) == {}
    ensures TargetFor(a, header) == TargetFor(b, header)
  {
    hide HostFromHostPort, SameOwn;
    SameOwnClaims(a, b, header, s.user);
    ClaimsAdd(a, header, s.user);
    ClaimsAdd(b, header, s.user);
    var own := OwnClaims(a, header, s.user);
    assert own != {};
    var c :| c in own;
    assert c in Claims(a.scan, HostFromHostPort(header)) && c in Claims(b.scan, HostFromHostPort(header));
    assert TargetOf(a.scan, c) == TargetOf(b.scan, c);
  }

  lemma ServeByTarget(a: View, b: View, header: string, s: Session, r: Request)
    requires TargetFor(a, header) == TargetFor(b, header) && Mux(a.reg, s, r) == Mux(b.reg, s, r)
    ensures Serve(a, header, s, r) == Serve(b, header, s, r)
  {
    hide Mux, TargetFor;
  }

  // ---------------------------------------------------------------- and exactly then

  /** The view without any other user. */
  function Only(v: View, user: string): View {
    View(v.reg, map u | u in v.scan && u == user :: v.scan[u])
  }

  /** Somebody else. */
  function Rival(user: string): string {
    if user == "a" then "b" else "a"
  }

  function RivalService(host: string): Service {
    Service("s", "", "", "127.0.0.1", 1, "/s", "", false, false, [host], "", 0, 0, None)
  }

  /** The view with one other user, who claims the hostname. */
  function Rivaled(v: View, user: string, host: string): View {
    var own, services := Only(v, user), [RivalService(host)];
    View(own.reg[Rival(user) := Config(services, "")], own.scan[Rival(user) := services])
  }

  lemma OnlyIsCoherent(v: View, header: string, user: string)
    requires Coherent(v)
    ensures Coherent(Only(v, user)) && SameOwn(v, Only(v, user), user) && OtherClaims(Only(v, user), header, user) == {}
    ensures OwnClaims(Only(v, user), header, user) == OwnClaims(v, header, user)
  {
    hide HostFromHostPort, NormalList;
    SameOwnClaims(v, Only(v, user), header, user);
  }

  lemma RivaledIsCoherent(v: View, header: string, user: string)
    requires Coherent(v) && IsNormal(HostFromHostPort(header))
    ensures var b := Rivaled(v, user, HostFromHostPort(header));
            && Coherent(b) && SameOwn(v, b, user) && |OtherClaims(b, header, user)| == 1
            && OwnClaims(b, header, user) == OwnClaims(v, header, user)
  {
    var host := HostFromHostPort(header);
    hide HostFromHostPort, IsNormal;
    var b, rival := Rivaled(v, user, host), Rival(user);
    assert rival != user && b.scan[rival] == [RivalService(host)];
    assert NormalList([host]);
    assert Coherent(b);
    SameOwnClaims(v, b, header, user);
    assert OtherClaims(b, header, user) == {Claim(rival, 0, 0)};
  }

  /**
    * When a Host tells a user nothing of the others: if it is no hostname, if two of the user's
    * own services claim it, if one does and the path leads to the same answer as the virtual
    * host, or if none does and the path leads to "not found".
    */
  ghost predicate Untold(v: View, header: string, s: Session, r: Request)
    requires Coherent(v)
  {
    var own, byPath := OwnClaims(v, header, s.user), Mux(v.reg, s, r);
    || !IsNormal(HostFromHostPort(header)) || |own| >= 2
    || (own == {} && byPath == Refuse(404))
    || (|own| == 1 && byPath == Serve(Only(v, s.user), header, s, r))
  }

  lemma UntoldIsSame(a: View, b: View, header: string, s: Session, r: Request)
    requires Coherent(a) && Coherent(b) && SameOwn(a, b, s.user) && LoggedIn(s) && PathsClear(a.reg, s, r)
    requires Untold(a, header, s, r)
    ensures Serve(b, header, s, r) ==
              if |OwnClaims(a, header, s.user)| == 1 && IsNormal(HostFromHostPort(header))
              then Serve(Only(a, s.user), header, s, r) else Mux(a.reg, s, r)
  {
    hide HostFromHostPort, IsNormal, Mux, Coherent, Serve, TargetFor, SameOwn, PathsClear, LoggedIn;
    PathsAgree(a, b, s, r);
    SameOwnClaims(a, b, header, s.user);
    ClaimsAdd(b, header, s.user);
    ClaimsDecide(b, header, s, r);
    var own := OwnClaims(b, header, s.user);
    if !IsNormal(HostFromHostPort(header)) {
      if Claims(b.scan, HostFromHostPort(header)) != {} {
        ClaimedIsNormal(b, HostFromHostPort(header));
      }
    } else if |own| == 1 && OtherClaims(b, header, s.user) == {} {
      OnlyIsCoherent(a, header, s.user);
      OnlyAgrees(a, b, s, r);
      OthersStayHidden(Only(a, s.user), b, header, s, r);
    }
  }

  lemma OnlyAgrees(a: View, b: View, s: Session, r: Request)
    requires Coherent(a) && SameOwn(a, b, s.user) && PathsClear(a.reg, s, r)
    ensures SameOwn(Only(a, s.user), b, s.user) && PathsClear(Only(a, s.user).reg, s, r)
  {
  }

  /**
    * The Host is exact: with paths and Referers clear, a user's answer is the same whatever
    * other users have configured if and only if the Host tells nothing of them.
    */
  lemma HiddenIffUntold(a: View, header: string, s: Session, r: Request)
    requires Coherent(a) && LoggedIn(s) && PathsClear(a.reg, s, r)
    ensures (forall b :: Coherent(b) && SameOwn(a, b, s.user) ==> Serve(b, header, s, r) == Serve(a, header, s, r)) <==>
            Untold(a, header, s, r)
  {
    hide HostFromHostPort, IsNormal, Mux, Coherent, Serve, TargetFor, SameOwn, PathsClear, LoggedIn, Untold, OwnClaims;
    SameOwnRefl(a, s.user);
    if Untold(a, header, s, r) {
      UntoldIsSame(a, a, header, s, r);
      forall b | Coherent(b) && SameOwn(a, b, s.user)
        ensures Serve(b, header, s, r) == Serve(a, header, s, r)
      {
        UntoldIsSame(a, b, header, s, r);
      }
    } else {
      HostTells(a, header, s, r);
    }
  }

  lemma SameOwnRefl(a: View, user: string)
    ensures SameOwn(a, a, user)
  {
  }

  lemma HostTells(a: View, header: string, s: Session, r: Request)
    requires Coherent(a) && LoggedIn(s) && PathsClear(a.reg, s, r) && !Untold(a, header, s, r)
    ensures var with := Rivaled(a, s.user, HostFromHostPort(header));
            && Coherent(with) && SameOwn(a, with, s.user)
            && Coherent(Only(a, s.user)) && SameOwn(a, Only(a, s.user), s.user)
            && Serve(with, header, s, r) != Serve(Only(a, s.user), header, s, r)
  {
    hide HostFromHostPort, IsNormal, Mux, Coherent, Serve, TargetFor, SameOwn, PathsClear, LoggedIn;
    var with := Rivaled(a, s.user, HostFromHostPort(header));
    OnlyIsCoherent(a, header, s.user);
    RivaledIsCoherent(a, header, s.user);
    PathsAgree(a, with, s, r);
    PathsAgree(a, Only(a, s.user), s, r);
    ClaimsDecide(with, header, s, r);
    ClaimsDecide(Only(a, s.user), header, s, r);
  }
}
