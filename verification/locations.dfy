/**
  * The Location header a redirect is answered with: net/http cleans the target's path, so what
  * the browser follows need not be what the gateway wrote.
  */
module Locations {
  import opened Basics
  import opened Text
  import opened ServicePaths
  import opened UrlPaths
  import opened Routing
  import opened Redirects
  import opened Decisions

  /** http.Redirect on a path of this host: the path is cleaned, the query kept. */
  function Location(target: string): string
    requires OnGateway(target)
  {
    var k := Find(target, '?');
    CleanPath(target[..k]) + target[k..]
  }

  lemma QueryKeepsPrefix(a: string, p: string, q: string)
    requires '?' !in a && (q == "" || q[0] == '?')
    ensures a <= p + q <==> a <= p
  {
    assert (p + q)[..|p|] == p;
    assert q != "" ==> (p + q)[|p|] == '?';
    assert |a| > |p| ==> a[|p|] in a;
  }

  lemma LocationIsOnGateway(target: string)
    requires OnGateway(target)
    ensures OnGateway(Location(target))
  {
    var k := Find(target, '?');
    CleanPathIsOnGateway(target[..k]);
    QueryKeepsPrefix("//", CleanPath(target[..k]), target[k..]);
    hide CleanPath;
  }

  /** A path target the mux would leave alone is sent as it is. */
  lemma LocationFixes(p: string, q: string)
    requires OnGateway(p) && '?' !in p && CleanPath(p) == p && IsQuery(q)
    ensures OnGateway(p + q) && Location(p + q) == p + q
  {
    QueryKeepsPrefix("//", p, q);
    FindQuery(p, q);
    hide CleanPath, Find;
    assert (p + q)[..|p|] == p && (p + q)[|p|..] == q;
  }

  lemma FindQuery(p: string, q: string)
    requires '?' !in p && IsQuery(q)
    ensures Find(p + q, '?') == |p|
  {
    hide Find;
    var s := p + q;
    assert forall i :: 0 <= i < |p| ==> s[i] == p[i];
    assert forall k :: |p| < k <= |s| ==> s[..k][|p|] == '?';
  }

  lemma {:induction false} ResolveFrom(parts: seq<string>, e: string)
    requires e in Resolve(parts)
    ensures e in parts
    decreases |parts|
  {
    if parts != [] {
      var init, last := parts[..|parts| - 1], parts[|parts| - 1];
      assert parts == init + [last];
      if e in Resolve(init) {
        ResolveFrom(init, e);
      }
    }
  }

  lemma {:induction false} PathOfChars(elements: seq<string>, c: char)
    requires c != '/' && forall e :: e in elements ==> c !in e
    ensures c !in PathOf(elements)
  {
    if elements != [] {
      assert elements[|elements| - 1] in elements;
      PathOfChars(elements[..|elements| - 1], c);
    }
  }

  lemma {:induction false} SplitChars(s: string, sep: char, c: char)
    requires c !in s
    ensures forall e :: e in Split(s, sep) ==> c !in e
    decreases |s|
  {
    if s != [] {
      assert s[0] in s;
      SplitChars(s[1..], sep, c);
    }
  }

  /** Cleaning adds nothing but slashes. */
  lemma CleanPathChars(p: string, c: char)
    requires c !in p && c != '/'
    ensures c !in CleanPath(p)
  {
    if p != "" {
      var rooted := if p[0] == '/' then p else ['/'] + p;
      var parts := Split(rooted, '/');
      SplitChars(rooted, '/', c);
      forall e | e in Resolve(parts)
        ensures c !in e
      {
        ResolveFrom(parts, e);
      }
      PathOfChars(Resolve(parts), c);
      hide Split, Resolve, PathOf;
    }
  }

  lemma ValidNameChars(user: string)
    requires IsValidUsername(user)
    ensures '?' !in user && '/' !in user
  {
  }

  lemma BareIsClean(user: string, p: string)
    requires IsValidUsername(user) && CleanPath(p) == p && '?' !in p
    ensures var t := "/proxy/" + user + p; OnGateway(t) && '?' !in t && CleanPath(t) == t
  {
    hide *;
    CleanPathIsPath(p);
    UserMountIsClean(user);
    ValidNameChars(user);
    BelowMountIsPath("/proxy/" + user, p);
    CleanPathFixes("/proxy/" + user + p);
    CleanPathIsOnGateway("/proxy/" + user + p);
  }

  /** An escape is a redirect to where the route cookie points. */
  predicate IsEscape(s: Session, r: Request) {
    r.path == "/" && ProxyEscape(s, r).Some?
  }

  /** All other redirects: the mux's own, and those of bare paths. */
  lemma RedirectIs(reg: Registry, s: Session, r: Request)
    requires Mux(reg, s, r).Redirect? && !IsEscape(s, r)
    ensures var d := Mux(reg, s, r);
            || d == Redirect(CleanPath(r.path) + QueryOf(r))
            || (r.path in ["/api", "/proxy"] && d == Redirect(r.path + "/" + QueryOf(r)))
            || (CleanPath(r.path) == r.path && d == Bare(reg, s, r))
  {
    OnlyBareRedirects(reg, s, r);
    hide CleanPath, ApiRoute, LoginRoute, HandleProxy, Bare, ProxyEscape, RefererProxy, QueryOf, OnGateway;
  }

  lemma QueryIsQuery(r: Request)
    ensures IsQuery(QueryOf(r))
  {
  }

  lemma OneElementDirectory(e: string)
    requires IsElement(e) && '?' !in e
    ensures IsPath("/" + e + "/") && '?' !in "/" + e + "/"
  {
    OneElementPath(e);
    SlashedIsPath("/" + e);
    hide IsPath, IsClean;
  }

  lemma RootedDirectories()
    ensures IsPath("/api/") && IsPath("/proxy/") && '?' !in "/api/" && '?' !in "/proxy/"
    ensures "/api" + "/" == "/api/" && "/proxy" + "/" == "/proxy/"
  {
    hide IsPath;
    OneElementDirectory("api");
    OneElementDirectory("proxy");
    assert "/" + "api" + "/" == "/api/" && "/" + "proxy" + "/" == "/proxy/";
  }

  lemma OneSlashPath(p: string)
    requires IsPath(p)
    ensures OnGateway(p) && CleanPath(p) == p
  {
    PathCases(p);
    CleanPathFixes(p);
    hide IsPath, CleanPath, IsClean, Unslashed;
  }

  /** The cleaning changes no redirect but an escape. */
  lemma OnlyEscapesAreCleaned(reg: Registry, s: Session, r: Request)
    requires IsValidUsername(s.user) && '?' !in r.path
    requires Mux(reg, s, r).Redirect? && !IsEscape(s, r)
    ensures var t := Mux(reg, s, r).target; OnGateway(t) && Location(t) == t
  {
    hide *;
    RedirectIs(reg, s, r);
    QueryIsQuery(r);
    CleanPathChars(r.path, '?');
    CleanPathIsPath(r.path);
    OneSlashPath(CleanPath(r.path));
    LocationFixes(CleanPath(r.path), QueryOf(r));
    if r.path in ["/api", "/proxy"] {
      RootedDirectories();
      OneSlashPath(r.path + "/");
      LocationFixes(r.path + "/", QueryOf(r));
    }
    if CleanPath(r.path) == r.path && Mux(reg, s, r) == Bare(reg, s, r) {
      BareRedirectIs(reg, s, r);
      BareIsClean(s.user, r.path);
      LocationFixes("/proxy/" + s.user + r.path, QueryOf(r));
    }
  }

  lemma BareRedirectIs(reg: Registry, s: Session, r: Request)
    requires Bare(reg, s, r).Redirect?
    ensures LoggedIn(s) && Bare(reg, s, r).target == "/proxy/" + s.user + r.path + QueryOf(r)
  {
    FallbacksDoNotRedirect(reg, s, r);
    BareMeans(reg, s.user, r.path);
    var svc := BareService(reg, s.user, r.path);
    if svc.Some? {
      BareTargetIs(s.user, svc.value, r.path);
    }
    hide RefererProxy, RouteCookieProxy, DefaultProxy, RootAbsolute, BarePathIsPage, BareService, QueryOf, BareTarget, BareCovers;
  }

  // ---------------------------------------------------------------- where an escape leads

  /** How deep the elements lead, or -1 once a ".." has climbed out. */
  function Level(parts: seq<string>): (n: int)
    ensures n >= -1
  {
    if parts == [] then 0
    else
      var before, last := Level(parts[..|parts| - 1]), parts[|parts| - 1];
      if before < 0 then -1
      else if last == "" || last == "." then before
      else if last == ".." then before - 1
      else before + 1
  }

  /** Elements that do not climb out leave alone what they are put behind. */
  lemma {:induction false} KeepsBase(a: seq<string>, c: seq<string>)
    requires Level(c) >= 0
    ensures Resolve(a) <= Resolve(a + c) && |Resolve(a + c)| == |Resolve(a)| + Level(c)
    decreases |c|
  {
    if c == [] {
      assert a + c == a;
    } else {
      assert (a + c)[..|a + c| - 1] == a + c[..|c| - 1];
      KeepsBase(a, c[..|c| - 1]);
    }
  }

  predicate AtHome(user: string, elements: seq<string>) {
    |elements| >= 2 && elements[0] == "proxy" && elements[1] == user
  }

  /** The user's directory is entered, and not climbed out of after that. */
  ghost predicate ComesHome(user: string, parts: seq<string>) {
    exists k :: 0 <= k < |parts| && EntersAt(user, parts, k)
  }

  predicate EntersAt(user: string, parts: seq<string>, k: nat) {
    k < |parts| && parts[k] == user && Resolve(parts[..k]) == ["proxy"] && Level(parts[k + 1..]) >= 0
  }

  lemma EnteringIsHome(user: string, parts: seq<string>, k: nat)
    requires IsElement(user) && EntersAt(user, parts, k)
    ensures AtHome(user, Resolve(parts)) && |Resolve(parts)| == 2 + Level(parts[k + 1..])
  {
    var front := parts[..k + 1];
    assert front[..k] == parts[..k] && front[|front| - 1] == user;
    assert Resolve(front) == ["proxy"] + [user];
    KeepsBase(front, parts[k + 1..]);
    assert front + parts[k + 1..] == parts;
    hide Resolve, Level;
    assert Resolve(parts)[..2] == ["proxy", user];
  }

  lemma {:induction false} HomeIsEntered(user: string, parts: seq<string>) returns (k: nat)
    requires IsElement(user) && AtHome(user, Resolve(parts))
    ensures EntersAt(user, parts, k)
    decreases |parts|
  {
    var init, last := parts[..|parts| - 1], parts[|parts| - 1];
    if |Resolve(init)| == 1 {
      k := |init|;
      assert Resolve(init) == ["proxy"] && parts[k + 1..] == [];
    } else {
      k := HomeIsEntered(user, init);
      EnteringIsHome(user, init, k);
      var rest := parts[k + 1..];
      assert rest[..|rest| - 1] == init[k + 1..] && rest[|rest| - 1] == last && init[..k] == parts[..k];
    }
  }

  /** What a cleaned path consists of. */
  lemma CleanedParts(p: string)
    requires p != "" && p[0] == '/'
    ensures var c, elements := Clean(p), Resolve(Split(p, '/'));
            && IsClean(c) && Elements(c) == elements && (elements == [] <==> c == "/") && AllElements(elements)
            && (elements != [] ==> c == PathOf(elements))
            && CleanPath(p) == (if p[|p| - 1] == '/' && c != "/" then c + "/" else c)
  {
    ResolvedElements(Split(p, '/'));
    if Resolve(Split(p, '/')) != [] {
      PathOfIsClean(Resolve(Split(p, '/')));
    }
    hide Split, Resolve, PathOf;
  }

  lemma AtHomeIs(user: string, elements: seq<string>)
    ensures AtHome(user, elements) <==> ["proxy", user] <= elements
    ensures AtHome(user, elements) && |elements| == 2 ==> elements == ["proxy", user]
  {
  }

  lemma DeeperPath(a: seq<string>, elements: seq<string>)
    requires AllElements(elements) && a < elements
    ensures PathOf(a) + "/" <= PathOf(elements)
  {
    hide PathOf, IsElement;
    var rest := elements[|a|..];
    assert elements == a + rest && forall e :: e in rest ==> e in elements;
    PathOfConcat(a, rest);
    PathOfStart(rest);
    RootedBehind(PathOf(a), PathOf(rest));
  }

  lemma RootedBehind(a: string, b: string)
    requires b != "" && b[0] == '/'
    ensures a + "/" <= a + b
  {
    assert (a + b)[..|a| + 1] == a + "/";
  }

  lemma PrefixGrows(a: string, b: string)
    requires a <= b
    ensures a <= b + "/"
  {
  }

  lemma HomeMeansPrefix(user: string, p: string)
    requires IsValidUsername(user) && p != "" && p[0] == '/'
    requires var elements := Resolve(Split(p, '/')); AtHome(user, elements) && (|elements| > 2 || p[|p| - 1] == '/')
    ensures "/proxy/" + user + "/" <= CleanPath(p)
  {
    hide *;
    var c, elements := Clean(p), Resolve(Split(p, '/'));
    CleanedParts(p);
    UserMountIsClean(user);
    AtHomeIs(user, elements);
    if |elements| > 2 {
      DeeperPath(["proxy", user], elements);
      PrefixGrows("/proxy/" + user + "/", c);
    }
  }

  lemma InsideMount(m: string, c: string)
    requires IsClean(m) && m != "/" && IsClean(c) && m + "/" <= c
    ensures Elements(m) < Elements(c)
  {
    RestIsClean(m, c);
    JoinedElements(m, c[|m|..]);
    hide IsClean, Elements, PathOf;
    assert c == m + c[|m|..];
  }

  lemma SlashedPrefix(m: string, c: string, p: string)
    requires m + "/" <= p && !(m + "/" <= c) && (p == c || p == c + "/")
    ensures p == c + "/" && c == m
  {
    assert |m + "/"| == |c + "/"|;
    assert (c + "/")[..|c|] == c && (m + "/")[..|m|] == m;
  }

  lemma PrefixMeansHome(user: string, p: string)
    requires IsValidUsername(user) && p != "" && p[0] == '/'
    requires "/proxy/" + user + "/" <= CleanPath(p)
    ensures var elements := Resolve(Split(p, '/')); AtHome(user, elements) && (|elements| > 2 || p[|p| - 1] == '/')
  {
    hide *;
    var c, elements, m := Clean(p), Resolve(Split(p, '/')), "/proxy/" + user;
    CleanedParts(p);
    UserMountIsClean(user);
    AtHomeIs(user, elements);
    if m + "/" <= c {
      InsideMount(m, c);
    } else {
      SlashedPrefix(m, c, CleanPath(p));
      NotItsSlash(c);
    }
  }

  lemma NotItsSlash(c: string)
    ensures c + "/" != c
  {
    assert |c + "/"| == |c| + 1;
  }

  lemma EscapeIs(s: Session, r: Request)
    requires IsValidUsername(s.user) && ProxyEscape(s, r).Some?
    ensures ProxyEscape(s, r).value.Redirect?
    ensures var t := ProxyEscape(s, r).value.target;
            var k := Find(t, '?');
            && OnGateway(t) && k < |t| && t[k] == '?' && t[..k] != "" && t[0] == '/' && t[k..] != ""
  {
    EscapeIsHome(s, r);
    ValidNameChars(s.user);
    var t := ProxyEscape(s, r).value.target;
    var home := "/proxy/" + s.user + "/";
    hide OnGateway, IsValidUsername;
    assert '?' in t by {
      assert t[|t| - |"?" + r.query|] == '?';
    }
    assert home <= t && '?' !in home;
    assert t[0] == home[0];
    assert t[..|t|] == t;
  }

  /**
    * Where an escape leads: the Location stays inside the user's own paths if and only if the
    * route enters the user's directory and no ".." behind that climbs out of it.
    */
  lemma EscapeStaysHomeIff(s: Session, r: Request)
    requires IsValidUsername(s.user) && ProxyEscape(s, r).Some?
    ensures ProxyEscape(s, r).value.Redirect?
    ensures var t := ProxyEscape(s, r).value.target;
            var p := t[..Find(t, '?')];
            && OnGateway(t) && p != "" && p[0] == '/'
            && ("/proxy/" + s.user + "/" <= Location(t) <==>
                  ComesHome(s.user, Split(p, '/')) && (p[|p| - 1] == '/' || |Resolve(Split(p, '/'))| > 2))
  {
    EscapeIs(s, r);
    ValidNameChars(s.user);
    ValidNameIsElement(s.user);
    var t := ProxyEscape(s, r).value.target;
    var p, q := t[..Find(t, '?')], t[Find(t, '?')..];
    var home, parts := "/proxy/" + s.user + "/", Split(p, '/');
    hide OnGateway, IsValidUsername, Split, Resolve, Level, CleanPath, ProxyEscape, EntersAt, AtHome, IsElement;
    QueryKeepsPrefix(home, CleanPath(p), q);
    if home <= CleanPath(p) {
      PrefixMeansHome(s.user, p);
      var k := HomeIsEntered(s.user, parts);
      EntersInside(s.user, parts, k);
    } else if ComesHome(s.user, parts) && (p[|p| - 1] == '/' || |Resolve(parts)| > 2) {
      var k :| 0 <= k < |parts| && EntersAt(s.user, parts, k);
      EnteringIsHome(s.user, parts, k);
      HomeMeansPrefix(s.user, p);
    }
  }

  lemma EntersInside(user: string, parts: seq<string>, k: nat)
    requires EntersAt(user, parts, k)
    ensures k < |parts|
  {
  }

  lemma ValidNameIsElement(user: string)
    requires IsValidUsername(user)
    ensures IsElement(user)
  {
    ValidNameChars(user);
    assert "."[0] == '.' && ".."[0] == '.';
  }

  /** The path an escape is aimed at. */
  function Aim(route: string): string {
    if route != "" && route[|route| - 1] == '/' then route else route + "/"
  }

  lemma EscapeTarget(s: Session, r: Request)
    requires IsValidUsername(s.user) && ProxyEscape(s, r).Some? && '?' !in r.route("", r.refPath)
    ensures var p := Aim(r.route("", r.refPath));
            && p != "" && p[|p| - 1] == '/' && '?' !in p && IsQuery(QueryOf(r))
            && ProxyEscape(s, r) == Some(Redirect(p + QueryOf(r)))
            && (p + QueryOf(r))[..Find(p + QueryOf(r), '?')] == p
            && (p + QueryOf(r))[Find(p + QueryOf(r), '?')..] == QueryOf(r)
  {
    var p := Aim(r.route("", r.refPath));
    FindAt(p, r.query, '?');
    hide IsValidUsername, Find;
    assert r.route("", r.refPath) + "" == r.route("", r.refPath);
    var t := p + QueryOf(r);
    assert p + ['?'] + r.query == t == p + "?" + r.query;
    assert t[..|p|] == p && t[|p|..] == QueryOf(r);
  }

  lemma SplitAim(user: string, tail: string) returns (rest: seq<string>)
    requires IsValidUsername(user)
    ensures Split(Aim("/proxy/" + user + "/" + tail), '/') == ["", "proxy", user] + rest
    ensures Level(rest) == Level(Split(tail, '/'))
  {
    var m, route := "/proxy/" + user, "/proxy/" + user + "/" + tail;
    UserMountIsClean(user);
    ValidNameChars(user);
    SplitPathOf(["proxy", user]);
    SplitConcat(m, tail, '/');
    SplitSlashed(route);
    var parts := Split(tail, '/');
    assert (parts + [""])[..|parts|] == parts;
    assert Level(parts + [""]) == Level(parts);
    hide Split, Level, PathOf;
    assert m + ['/'] + tail == route;
    assert Split(route, '/') == ["", "proxy", user] + parts;
    assert Split(route + "/", '/') == ["", "proxy", user] + (parts + [""]);
    rest := if Aim(route) == route then parts else parts + [""];
  }

  lemma EntersFirst(user: string, rest: seq<string>)
    requires Level(rest) >= 0
    ensures ComesHome(user, ["", "proxy", user] + rest)
  {
    var parts := ["", "proxy", user] + rest;
    assert parts[..2] == ["", "proxy"] && parts[3..] == rest;
    assert ["", "proxy"][..1] == [""] && [""][..0] == [];
    assert EntersAt(user, parts, 2);
  }

  /** In particular a route in which no ".." climbs above where it started keeps the user at home. */
  lemma LevelRoutesStayHome(s: Session, r: Request, tail: string)
    requires IsValidUsername(s.user) && ProxyEscape(s, r).Some?
    requires r.route("", r.refPath) == "/proxy/" + s.user + "/" + tail && '?' !in tail && Level(Split(tail, '/')) >= 0
    ensures ProxyEscape(s, r).value.Redirect?
    ensures var t := ProxyEscape(s, r).value.target; OnGateway(t) && "/proxy/" + s.user + "/" <= Location(t)
  {
    hide *;
    ValidNameChars(s.user);
    EscapeStaysHomeIff(s, r);
    EscapeTarget(s, r);
    var rest := SplitAim(s.user, tail);
    EntersFirst(s.user, rest);
  }

  lemma ClimbingResolves(user: string, other: string)
    requires IsElement(user) && IsElement(other)
    ensures Resolve(["", "proxy", user, "..", other, ""]) == ["proxy", other]
  {
    ResolveEmpty();
    ResolveElements([""], ["proxy", user]);
    assert [""] + ["proxy", user] == ["", "proxy", user];
    assert Resolve(["", "proxy", user]) == ["proxy", user];
    assert ["", "proxy", user, ".."][..3] == ["", "proxy", user];
    assert Resolve(["", "proxy", user, ".."]) == ["proxy"];
    assert ["", "proxy", user, "..", other][..4] == ["", "proxy", user, ".."];
    assert Resolve(["", "proxy", user, "..", other]) == ["proxy", other];
    assert ["", "proxy", user, "..", other, ""][..5] == ["", "proxy", user, "..", other];
  }

  lemma ClimbingSplits(user: string, other: string)
    requires IsValidUsername(user) && IsValidUsername(other)
    ensures Split("/proxy/" + user + "/../" + other + "/", '/') == ["", "proxy", user, "..", other, ""]
  {
    hide *;
    var elements := ["proxy", user, "..", other, ""];
    ValidNameChars(user);
    ValidNameChars(other);
    UserMountIsClean(user);
    PathOfSnoc(["proxy", user], "..");
    PathOfSnoc(["proxy", user, ".."], other);
    PathOfSnoc(["proxy", user, "..", other], "");
    SplitPathOf(elements);
    assert ["proxy", user] + [".."] == ["proxy", user, ".."];
    assert ["proxy", user, ".."] + [other] == ["proxy", user, "..", other];
    assert ["proxy", user, "..", other] + [""] == elements;
    var m := "/proxy/" + user;
    assert m + "/../" + other + "/" == m + ['/'] + ".." + ['/'] + other + ['/'] + "";
    assert [""] + elements == ["", "proxy", user, "..", other, ""];
  }

  lemma ClimbingPath(user: string, other: string)
    requires IsValidUsername(user) && IsValidUsername(other)
    ensures var p := "/proxy/" + user + "/../" + other + "/"; CleanPath(p) == "/proxy/" + other + "/"
  {
    hide *;
    var p := "/proxy/" + user + "/../" + other + "/";
    ValidNameIsElement(user);
    ValidNameIsElement(other);
    UserMountIsClean(other);
    ClimbingSplits(user, other);
    ClimbingResolves(user, other);
    CleanedParts(p);
  }

  lemma EscapeHappens(s: Session, r: Request)
    requires LoggedIn(s) && r.query != "" && "/proxy/" + s.user + "/" <= r.route("", r.refPath)
    ensures ProxyEscape(s, r).Some? && ProxyEscape(s, r).value.Redirect?
  {
  }

  lemma ClimbingAim(user: string, other: string)
    requires IsValidUsername(user) && IsValidUsername(other)
    ensures var route := "/proxy/" + user + "/../" + other;
            && "/proxy/" + user + "/" <= route && '?' !in route && Aim(route) == route + "/"
  {
    var route := "/proxy/" + user + "/../" + other;
    ValidNameChars(user);
    ValidNameChars(other);
    hide IsValidUsername;
    assert other == other[..|other| - 1] + [other[|other| - 1]] && other[|other| - 1] in other;
    assert route[..|"/proxy/" + user + "/"|] == "/proxy/" + user + "/";
    assert route[|route| - 1] == other[|other| - 1] != '/';
  }

  /** And one that does climb can name anybody. */
  lemma EscapeReachesOther(s: Session, r: Request, other: string)
    requires IsValidUsername(s.user) && IsValidUsername(other) && LoggedIn(s) && r.query != ""
    requires r.route("", r.refPath) == "/proxy/" + s.user + "/../" + other
    ensures ProxyEscape(s, r).Some? && ProxyEscape(s, r).value.Redirect?
    ensures var t := ProxyEscape(s, r).value.target;
            OnGateway(t) && Location(t) == "/proxy/" + other + "/" + QueryOf(r)
  {
    ClimbingAim(s.user, other);
    EscapeHappens(s, r);
    EscapeIsHome(s, r);
    EscapeTarget(s, r);
    ClimbingPath(s.user, other);
    hide CleanPath, OnGateway, IsValidUsername, ProxyEscape, Aim, QueryOf;
    assert "/proxy/" + s.user + "/../" + other + "/" == Aim(r.route("", r.refPath));
  }
}
