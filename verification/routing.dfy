/**
  * Finding the service a path belongs to: by canonical path /proxy/{user}/{service}/..., by
  * legacy path /proxy/{service}/..., and by bare path /{service}/...
  */
module Routing {
  import opened Basics
  import opened Text
  import opened ServicePaths
  import opened UserConfig

  /** The registry's view of the users while a request is served. */
  type Registry = map<string, Config>

  datatype Match = Match(username: string, service: Service, remaining: string, legacy: bool)

  /** What stands between /proxy/ and the next slash. */
  function UserPart(path: string): string {
    if "/proxy/" <= path then
      var rest := path[7..];
      var k := Find(rest, '/');
      if k < |rest| then rest[..k] else ""
    else ""
  }

  function UsernameFromProxyPath(path: string): string {
    if IsValidUsername(UserPart(path)) then UserPart(path) else ""
  }

  /** The path behind /proxy/{user}. */
  function AfterUser(path: string): string
    requires UsernameFromProxyPath(path) != ""
  {
    path[7 + |UserPart(path)|..]
  }

  function ServicesOf(reg: Registry, username: string): seq<Service> {
    if username in reg then reg[username].services else []
  }

  /** A path names a user exactly if a valid username stands between /proxy/ and a slash. */
  lemma NamesUserIff(path: string, user: string)
    ensures UsernameFromProxyPath(path) == user && user != "" <==>
            IsValidUsername(user) && exists rest :: rest != "" && rest[0] == '/' && path == "/proxy/" + user + rest
  {
    if UsernameFromProxyPath(path) == user && user != "" {
      assert path == "/proxy/" + path[7..];
      var rest := path[7..][|user|..];
      assert path == "/proxy/" + user + rest;
    }
    if rest :| IsValidUsername(user) && rest != "" && rest[0] == '/' && path == "/proxy/" + user + rest {
      ProxyPathParts(user, rest);
    }
  }

  // ---------------------------------------------------------------- the longest match

  /** The first of the services with the longest matching path. */
  function Best(services: seq<Service>, matches: Service -> bool): Option<Service> {
    if services == [] then None
    else
      var best, last := Best(services[..|services| - 1], matches), services[|services| - 1];
      if matches(last) && (best.None? || |last.path| > |best.value.path|) then Some(last) else best
  }

  lemma {:induction false} BestIsLongest(services: seq<Service>, matches: Service -> bool)
    ensures var best := Best(services, matches);
            && (best.None? <==> forall s :: s in services ==> !matches(s))
            && (best.Some? ==> best.value in services && matches(best.value)
                               && forall s :: s in services && matches(s) ==> |s.path| <= |best.value.path|)
  {
    if services != [] {
      BestIsLongest(services[..|services| - 1], matches);
      assert forall s :: s in services <==> s in services[..|services| - 1] || s == services[|services| - 1];
    }
  }

  predicate UniquePaths(services: seq<Service>) {
    forall a, b :: a in services && b in services && a.path == b.path ==> a == b
  }

  /** Equally long matches have the same path. */
  predicate LengthDecides(services: seq<Service>, matches: Service -> bool) {
    forall a, b :: a in services && b in services && matches(a) && matches(b) && |a.path| == |b.path| ==> a.path == b.path
  }

  /** The order of the services does not matter. */
  lemma BestIgnoresOrder(services: seq<Service>, permuted: seq<Service>, matches: Service -> bool)
    requires multiset(services) == multiset(permuted)
    requires UniquePaths(services) && LengthDecides(services, matches)
    ensures Best(services, matches) == Best(permuted, matches)
  {
    BestIsLongest(services, matches);
    BestIsLongest(permuted, matches);
    hide Best;
    assert forall s :: s in services <==> s in multiset(services);
    assert forall s :: s in permuted <==> s in multiset(permuted);
  }

  // ---------------------------------------------------------------- canonical paths

  /** A service at "/" covers everything. */
  predicate Covers(sp: string, p: string) {
    sp == "/" || p == sp || sp + "/" <= p
  }

  function CoversPath(p: string): Service -> bool {
    (s: Service) => Covers(s.path, p)
  }

  function OrSlash(p: string): string {
    if p == "" then "/" else p
  }

  /** What is left of a covered path for the backend. */
  function Remaining(sp: string, p: string): string
    requires Covers(sp, p)
  {
    if sp == "/" then OrSlash(p) else OrSlash(p[|sp|..])
  }

  function Canonical(username: string, s: Service, p: string): Match
    requires Covers(s.path, p)
  {
    Match(username, s, Remaining(s.path, p), false)
  }

  /** The longest covering service, as a match. */
  function BestCovering(username: string, services: seq<Service>, p: string): Option<Match> {
    BestIsLongest(services, CoversPath(p));
    var best := Best(services, CoversPath(p));
    if best.None? then None else Some(Canonical(username, best.value, p))
  }

  function Found(reg: Registry, path: string): Option<Match> {
    var username := UsernameFromProxyPath(path);
    if username == "" then None else BestCovering(username, ServicesOf(reg, username), AfterUser(path))
  }

  lemma NoneCovering(username: string, p: string)
    ensures BestCovering(username, [], p) == None
  {
  }

  lemma CoverOneMore(username: string, services: seq<Service>, n: nat, p: string)
    requires n < |services|
    ensures var best, s := BestCovering(username, services[..n], p), services[n];
            BestCovering(username, services[..n + 1], p) ==
            if Covers(s.path, p) && (best.None? || |s.path| > |best.value.service.path|) then Some(Canonical(username, s, p))
            else best
  {
    assert services[..n + 1][..n] == services[..n];
  }

  method FindService(reg: Registry, path: string) returns (best: Option<Match>)
    ensures best == Found(reg, path)
  {
    hide IsValidUsername, BestCovering;
    best := None;
    if !("/proxy/" <= path) {
      return;
    }
    var rest := path[7..];
    var slash := Find(rest, '/');
    if slash == |rest| || slash == 0 || !IsValidUsername(rest[..slash]) {
      return;
    }
    var username := rest[..slash];
    assert UserPart(path) == username && AfterUser(path) == rest[slash..];
    if username !in reg {
      NoneCovering(username, rest[slash..]);
      return;
    }
    best := LongestCovering(username, reg[username].services, rest[slash..]);
  }

  method LongestCovering(username: string, services: seq<Service>, p: string) returns (best: Option<Match>)
    requires p != ""
    ensures best == BestCovering(username, services, p)
  {
    hide BestCovering;
    best := None;
    var bestLen := -1;
    NoneCovering(username, p);
    for i := 0 to |services|
      invariant best == BestCovering(username, services[..i], p)
      invariant bestLen == if best.None? then -1 else |best.value.service.path|
    {
      CoverOneMore(username, services, i, p);
      var svc := services[i];
      var matches := svc.path == "/" || p == svc.path || svc.path + "/" <= p;
      if matches {
        if |svc.path| > bestLen {
          bestLen := |svc.path|;
          var remaining := p[|svc.path|..];
          if svc.path == "/" {
            remaining := p;
          }
          if remaining == "" {
            remaining := "/";
          }
          best := Some(Match(username, svc, remaining, false));
        }
      }
    }
    assert services[..|services|] == services;
  }

  /** What a canonical match is: the user named in the path, and the longest covering service. */
  lemma FoundMeans(reg: Registry, path: string)
    ensures var m := Found(reg, path);
            && (m.Some? ==>
                  && m.value.username == UsernameFromProxyPath(path) != "" && m.value.username in reg
                  && m.value.service in reg[m.value.username].services
                  && Covers(m.value.service.path, AfterUser(path))
                  && (forall s :: s in reg[m.value.username].services && Covers(s.path, AfterUser(path)) ==>
                        |s.path| <= |m.value.service.path|))
            && (m.None? ==>
                  || UsernameFromProxyPath(path) == ""
                  || forall s :: s in ServicesOf(reg, UsernameFromProxyPath(path)) ==> !Covers(s.path, AfterUser(path)))
  {
    var username := UsernameFromProxyPath(path);
    if username != "" {
      BestIsLongest(ServicesOf(reg, username), CoversPath(AfterUser(path)));
    }
    hide IsValidUsername, UserPart, Best, Covers;
  }

  lemma CoveringLengthDecides(services: seq<Service>, p: string)
    requires p != "" && p[0] == '/' && forall s :: s in services ==> s.path != "" && s.path[0] == '/'
    ensures LengthDecides(services, CoversPath(p))
  {
    forall a, b | a in services && b in services && Covers(a.path, p) && Covers(b.path, p) && |a.path| == |b.path|
      ensures a.path == b.path
    {
      assert a.path <= p && b.path <= p;
    }
  }

  /** The match does not depend on the order of the services in the file. */
  lemma FoundIgnoresOrder(reg: Registry, reg': Registry, path: string)
    requires var u := UsernameFromProxyPath(path);
             && multiset(ServicesOf(reg, u)) == multiset(ServicesOf(reg', u)) && UniquePaths(ServicesOf(reg, u))
             && forall s :: s in ServicesOf(reg, u) ==> s.path != "" && s.path[0] == '/'
    ensures Found(reg, path) == Found(reg', path)
  {
    var u := UsernameFromProxyPath(path);
    if u != "" {
      AfterUserIsRooted(path);
      CoveringLengthDecides(ServicesOf(reg, u), AfterUser(path));
      BestIgnoresOrder(ServicesOf(reg, u), ServicesOf(reg', u), CoversPath(AfterUser(path)));
    }
    hide Best, IsValidUsername, UserPart, Covers;
  }

  lemma AfterUserIsRooted(path: string)
    requires UsernameFromProxyPath(path) != ""
    ensures AfterUser(path) != "" && AfterUser(path)[0] == '/'
    ensures path == "/proxy/" + UsernameFromProxyPath(path) + AfterUser(path)
  {
    assert path == "/proxy/" + path[7..];
  }

  /** The mount point of a service: what its pages' paths start with. */
  function Mount(username: string, sp: string): string {
    "/proxy/" + username + if sp == "/" then "" else sp
  }

  lemma BestCoveringIs(username: string, services: seq<Service>, p: string)
    ensures var m := BestCovering(username, services, p);
            m.Some? ==> Covers(m.value.service.path, p) && m.value.remaining == Remaining(m.value.service.path, p)
                        && m.value.username == username
  {
    BestIsLongest(services, CoversPath(p));
    hide Remaining, Covers, Best;
  }

  lemma RemainingRebuilds(sp: string, p: string)
    requires Covers(sp, p) && p != ""
    ensures if sp == "/" then Remaining(sp, p) == p
            else sp + Remaining(sp, p) == if p == sp then p + "/" else p
  {
    if sp != "/" {
      assert p == sp + p[|sp|..];
    }
  }

  lemma Regroup(pre: string, sp: string, rest: string, p: string)
    requires sp + rest == if p == sp then p + "/" else p
    ensures pre + sp + rest == if pre + p == pre + sp then pre + p + "/" else pre + p
  {
    assert pre + sp + rest == pre + (sp + rest) && pre + p + "/" == pre + (p + "/");
    assert pre + p == pre + sp ==> (pre + p)[|pre|..] == (pre + sp)[|pre|..];
  }

  /** No part of the path is lost: mount and remaining path make up the request, but for a final slash. */
  lemma NothingIsLost(reg: Registry, path: string)
    requires Found(reg, path).Some?
    ensures var m := Found(reg, path).value;
            var mount := Mount(m.username, m.service.path);
            mount + m.remaining == if path == mount then path + "/" else path
  {
    AfterUserIsRooted(path);
    var username, p := UsernameFromProxyPath(path), AfterUser(path);
    BestCoveringIs(username, ServicesOf(reg, username), p);
    var m := Found(reg, path).value;
    RemainingRebuilds(m.service.path, p);
    hide IsValidUsername, UserPart, Best, Covers, AfterUser, Remaining, UsernameFromProxyPath, BestCovering, ServicesOf, Found;
    if m.service.path == "/" {
      assert |path| == |"/proxy/" + username| + |p|;
    } else {
      Regroup("/proxy/" + username, m.service.path, m.remaining, p);
    }
  }

  lemma ProxyPathParts(username: string, p: string)
    requires IsValidUsername(username) && p != "" && p[0] == '/'
    ensures UsernameFromProxyPath("/proxy/" + username + p) == username
    ensures AfterUser("/proxy/" + username + p) == p
  {
    var path := "/proxy/" + username + p;
    assert '/' !in username by {
      assert forall c :: c in username ==> IsNameStart(c) || IsDigit(c) || c == '-';
    }
    hide IsValidUsername;
    assert path[7..] == username + ['/'] + p[1..];
    FindAt(username, p[1..], '/');
    assert path[7..][..|username|] == username;
  }

  /**
    * Every service is reached through its own mount: a path inside it finds it, unless a
    * service nested below it covers that path too; in particular the mount itself always
    * does.
    */
  lemma MountLeadsBack(reg: Registry, username: string, s: Service, p: string)
    requires username in reg && IsValidUsername(username) && UniquePaths(reg[username].services)
    requires s in reg[username].services
    requires forall t :: t in reg[username].services ==> t.path != "" && t.path[0] == '/'
    requires p != "" && p[0] == '/' && Covers(s.path, p)
    ensures Found(reg, "/proxy/" + username + p) == Some(Canonical(username, s, p)) <==>
            forall t :: t in reg[username].services && Covers(t.path, p) ==> |t.path| <= |s.path|
    ensures p == s.path ==> Found(reg, "/proxy/" + username + p) == Some(Canonical(username, s, p))
  {
    var services := reg[username].services;
    ProxyPathParts(username, p);
    BestIsLongest(services, CoversPath(p));
    CoveringLengthDecides(services, p);
    hide IsValidUsername, UserPart, Best;
    if p == s.path {
      forall t | t in services && Covers(t.path, p)
        ensures |t.path| <= |s.path|
      {
      }
    }
  }

  // ---------------------------------------------------------------- legacy paths

  predicate LegacyCovers(sp: string, path: string) {
    var pre := "/proxy" + sp;
    path == pre || pre + "/" <= path || pre + "?" <= path
  }

  function LegacyCoversPath(path: string): Service -> bool {
    (s: Service) => LegacyCovers(s.path, path)
  }

  function Legacy(username: string, s: Service, path: string): Match
    requires LegacyCovers(s.path, path)
  {
    Match(username, s, OrSlash(path[6 + |s.path|..]), true)
  }

  function BestLegacy(username: string, services: seq<Service>, path: string): Option<Match> {
    BestIsLongest(services, LegacyCoversPath(path));
    var best := Best(services, LegacyCoversPath(path));
    if best.None? then None else Some(Legacy(username, best.value, path))
  }

  function FoundLegacy(reg: Registry, path: string, username: string): Option<Match> {
    if "/proxy/" <= path then BestLegacy(username, ServicesOf(reg, username), path) else None
  }

  /** A legacy path of a service is its path behind /proxy, ended or followed by a slash or a query. */
  lemma LegacyCoversIff(sp: string, path: string)
    ensures LegacyCovers(sp, path) <==>
            exists rest :: path == "/proxy" + sp + rest && (rest == "" || rest[0] == '/' || rest[0] == '?')
  {
    var pre := "/proxy" + sp;
    if pre <= path {
      assert path == pre + path[|pre|..];
    }
    assert pre + "/" <= path ==> path[|pre|] == (pre + "/")[|pre|];
    assert pre + "?" <= path ==> path[|pre|] == (pre + "?")[|pre|];
    if rest :| path == pre + rest && (rest == "" || rest[0] == '/' || rest[0] == '?') {
      assert rest == "" ==> path == pre;
      assert rest != "" ==> path[..|pre| + 1] == pre + [rest[0]];
    }
  }

  /** A path below a service is its path, ended or followed by a slash; everything is below "/". */
  lemma CoversIff(sp: string, p: string)
    ensures Covers(sp, p) <==> sp == "/" || exists rest :: p == sp + rest && (rest == "" || rest[0] == '/')
    ensures BareCovers(sp, p) <==> exists rest :: p == sp + rest && (rest == "" || rest[0] == '/')
  {
    if sp <= p {
      assert p == sp + p[|sp|..];
    }
    assert sp + "/" <= p ==> p[|sp|] == (sp + "/")[|sp|];
    if rest :| p == sp + rest && (rest == "" || rest[0] == '/') {
      assert rest == "" ==> p == sp;
      assert rest != "" ==> p[..|sp| + 1] == sp + [rest[0]];
    }
  }

  lemma NoneLegacy(username: string, path: string)
    ensures BestLegacy(username, [], path) == None
  {
  }

  lemma LegacyOneMore(username: string, services: seq<Service>, n: nat, path: string)
    requires n < |services|
    ensures var best, s := BestLegacy(username, services[..n], path), services[n];
            BestLegacy(username, services[..n + 1], path) ==
            if LegacyCovers(s.path, path) && (best.None? || |s.path| > |best.value.service.path|)
            then Some(Legacy(username, s, path)) else best
  {
    assert services[..n + 1][..n] == services[..n];
  }

  method FindLegacyService(reg: Registry, path: string, username: string) returns (best: Option<Match>)
    ensures best == FoundLegacy(reg, path, username)
  {
    hide BestLegacy;
    best := None;
    NoneLegacy(username, path);
    if username !in reg || !("/proxy/" <= path) {
      return;
    }
    var services := reg[username].services;
    var bestLen := -1;
    for i := 0 to |services|
      invariant best == BestLegacy(username, services[..i], path)
      invariant bestLen == if best.None? then -1 else |best.value.service.path|
    {
      LegacyOneMore(username, services, i, path);
      var svc := services[i];
      var pre := "/proxy" + svc.path;
      if path == pre || pre + "/" <= path || pre + "?" <= path {
        if |svc.path| <= bestLen {
          continue;
        }
        var remaining := path[|pre|..];
        if remaining != "" && remaining[0] != '/' && remaining[0] != '?' {
          continue;
        }
        if remaining == "" {
          remaining := "/";
        }
        bestLen := |svc.path|;
        best := Some(Match(username, svc, remaining, true));
      }
    }
    assert services[..|services|] == services;
  }

  /** A legacy match is a service of the given user, whoever the path seems to name. */
  lemma FoundLegacyMeans(reg: Registry, path: string, username: string)
    ensures var m := FoundLegacy(reg, path, username);
            m.Some? ==>
              && m.value.username == username && username in reg && m.value.service in reg[username].services
              && LegacyCovers(m.value.service.path, path)
              && forall s :: s in reg[username].services && LegacyCovers(s.path, path) ==>
                   |s.path| <= |m.value.service.path|
  {
    BestIsLongest(ServicesOf(reg, username), LegacyCoversPath(path));
    hide Best, LegacyCovers;
  }

  // ---------------------------------------------------------------- bare paths

  predicate BareCovers(sp: string, p: string) {
    p == sp || sp + "/" <= p
  }

  function BareCoversPath(p: string): Service -> bool {
    (s: Service) => BareCovers(s.path, p)
  }

  function BareService(reg: Registry, username: string, p: string): Option<Service> {
    Best(ServicesOf(reg, username), BareCoversPath(p))
  }

  method BestBareService(reg: Registry, username: string, p: string) returns (best: Option<Service>)
    ensures best == BareService(reg, username, p)
  {
    best := None;
    if username !in reg {
      return;
    }
    var services := reg[username].services;
    var bestLen := -1;
    for i := 0 to |services|
      invariant best == Best(services[..i], BareCoversPath(p))
      invariant bestLen == if best.None? then -1 else |best.value.path|
    {
      assert services[..i + 1][..i] == services[..i];
      var svc := services[i];
      if p == svc.path || svc.path + "/" <= p {
        if |svc.path| > bestLen {
          bestLen := |svc.path|;
          best := Some(svc);
        }
      }
    }
    assert services[..|services|] == services;
  }

  lemma BareMeans(reg: Registry, username: string, p: string)
    ensures var b := BareService(reg, username, p);
            && (b.None? ==> forall s :: s in ServicesOf(reg, username) ==> !BareCovers(s.path, p))
            && (b.Some? ==> username in reg && b.value in reg[username].services && BareCovers(b.value.path, p)
                            && forall s :: s in reg[username].services && BareCovers(s.path, p) ==> |s.path| <= |b.value.path|)
  {
    BestIsLongest(ServicesOf(reg, username), BareCoversPath(p));
    hide Best, BareCovers;
  }

  /** What the two notions of covering disagree on: the service at "/". */
  lemma CoversIsBareOrRoot(sp: string, p: string)
    ensures Covers(sp, p) <==> BareCovers(sp, p) || sp == "/"
  {
  }

  /**
    * A bare path goes to the service its canonical form goes to, except that a service at
    * "/" does not claim bare paths (other than "/" itself and paths that start with two
    * slashes).
    */
  lemma BareAgreesWithCanonical(reg: Registry, username: string, p: string)
    requires username in reg && IsValidUsername(username) && p != "" && p[0] == '/'
    requires UniquePaths(reg[username].services)
    requires forall s :: s in reg[username].services ==> s.path != "" && s.path[0] == '/'
    ensures var bare, full := BareService(reg, username, p), Found(reg, "/proxy/" + username + p);
            && (bare.Some? ==> full.Some? && full.value.service == bare.value)
            && (bare.None? ==> full.None? || full.value.service.path == "/")
            && (bare.Some? ==>
                  && BareCovers(bare.value.path, p)
                  && (full.value.remaining == OrSlash(p[|bare.value.path|..]) <==>
                        !(bare.value.path == "/" && "//" <= p)))
  {
    ProxyPathParts(username, p);
    FoundMeans(reg, "/proxy/" + username + p);
    BareMeans(reg, username, p);
    BestCoveringIs(username, reg[username].services, p);
    CoveringLengthDecides(reg[username].services, p);
    var bare := BareService(reg, username, p);
    hide IsValidUsername, UserPart, UsernameFromProxyPath, AfterUser, BestCovering, BareService;
    forall s | s in reg[username].services
      ensures Covers(s.path, p) <==> BareCovers(s.path, p) || s.path == "/"
    {
      CoversIsBareOrRoot(s.path, p);
    }
    hide Covers, BareCovers;
    if bare.Some? {
      RemainingOfBare(bare.value.path, p);
    }
  }

  lemma RemainingOfBare(sp: string, p: string)
    requires BareCovers(sp, p) && p != "" && sp != ""
    ensures Covers(sp, p)
    ensures Remaining(sp, p) == OrSlash(p[|sp|..]) <==> !(sp == "/" && "//" <= p)
  {
  }

  /** The redirect of a bare path. */
  function BareTarget(username: string, s: Service, p: string): string
    requires BareCovers(s.path, p)
  {
    "/proxy/" + username + s.path + p[|s.path|..]
  }

  lemma BareTargetIs(username: string, s: Service, p: string)
    requires BareCovers(s.path, p)
    ensures BareTarget(username, s, p) == "/proxy/" + username + p
  {
    assert s.path + p[|s.path|..] == p;
    assert "/proxy/" + username + s.path + p[|s.path|..] == "/proxy/" + username + (s.path + p[|s.path|..]);
  }

  /** Following the redirect of a bare path reaches the service that claimed it, at the same place. */
  lemma RedirectLandsOnService(reg: Registry, username: string, p: string)
    requires username in reg && IsValidUsername(username) && p != "" && p[0] == '/' && !("//" <= p)
    requires UniquePaths(reg[username].services)
    requires forall s :: s in reg[username].services ==> s.path != "" && s.path[0] == '/'
    requires BareService(reg, username, p).Some?
    ensures var s := BareService(reg, username, p).value;
            && BareCovers(s.path, p)
            && Found(reg, BareTarget(username, s, p)) == Some(Match(username, s, OrSlash(p[|s.path|..]), false))
  {
    hide *;
    BareMeans(reg, username, p);
    BareAgreesWithCanonical(reg, username, p);
    BareTargetIs(username, BareService(reg, username, p).value, p);
    FoundNames(reg, username, p);
  }

  lemma FoundNames(reg: Registry, username: string, p: string)
    requires IsValidUsername(username) && p != "" && p[0] == '/'
    ensures var m := Found(reg, "/proxy/" + username + p);
            m.Some? ==> m.value.username == username && !m.value.legacy
  {
    ProxyPathParts(username, p);
    BestCoveringIs(username, ServicesOf(reg, username), p);
    NotLegacy(username, ServicesOf(reg, username), p);
    hide IsValidUsername, UserPart, UsernameFromProxyPath, AfterUser, BestCovering, Covers;
  }

  lemma NotLegacy(username: string, services: seq<Service>, p: string)
    ensures var m := BestCovering(username, services, p); m.Some? ==> !m.value.legacy
  {
    BestIsLongest(services, CoversPath(p));
    hide Best, Covers;
  }
}
