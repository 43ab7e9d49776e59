/**
  * Route cookies: which proxied service a bare request belongs to, judged by the cookies left
  * by earlier visits.  The cookies are a map, and the order in which Go iterates over it is
  * arbitrary.
  */
module RouteCookies {
  import opened Basics
  import opened Text
  import opened Slugs

  type Jar = map<string, string>

  const ROUTE := "goprox_route"
  const ROUTE_PREFIX := "goprox_route_"

  // ---------------------------------------------------------------- parsing the Cookie header

  /** The name and value of one part of the header, if it has both. */
  function CookieOf(part: string): Option<(string, string)> {
    var pair := TrimSpace(part);
    var idx := Find(pair, '=');
    if idx == |pair| || TrimSpace(pair[..idx]) == "" then None
    else Some((TrimSpace(pair[..idx]), TrimSpace(pair[idx + 1..])))
  }

  /** Later cookies of a name win. */
  function CookiesIn(parts: seq<string>): Jar {
    if parts == [] then map[]
    else
      var before, last := CookiesIn(parts[..|parts| - 1]), CookieOf(parts[|parts| - 1]);
      if last.None? then before else before[last.value.0 := last.value.1]
  }

  function Cookies(header: string): Jar {
    CookiesIn(Split(header, ';'))
  }

  method ParseCookies(header: string) returns (cookies: Jar)
    ensures cookies == Cookies(header)
  {
    hide TrimSpace;
    cookies := map[];
    if header == "" {
      NoCookies();
      return;
    }
    var parts := Split(header, ';');
    for i := 0 to |parts|
      invariant cookies == CookiesIn(parts[..i])
    {
      assert parts[..i + 1][..i] == parts[..i];
      var pair := TrimSpace(parts[i]);
      if pair == "" {
        continue;
      }
      var idx := Find(pair, '=');
      if idx == |pair| {
        continue;
      }
      var key, val := TrimSpace(pair[..idx]), TrimSpace(pair[idx + 1..]);
      if key != "" {
        cookies := cookies[key := val];
      }
    }
    assert parts[..|parts|] == parts;
  }

  lemma NoCookies()
    ensures Cookies("") == map[]
  {
    SplitStart("", ';');
    assert [""][..0] == [];
    assert CookiesIn([""]) == CookiesIn([]);
  }

  function Lookup(jar: Jar, name: string): string {
    if name in jar then jar[name] else ""
  }

  // ---------------------------------------------------------------- the routes in the jar

  /** The routes a jar holds: the recent one, and one for each service visited. */
  ghost predicate IsRoute(jar: Jar, route: string) {
    route != "" && exists name :: name in jar && jar[name] == route && (name == ROUTE || ROUTE_PREFIX <= name)
  }

  /** What `routeCookieValues` returns, in whatever order the map was walked. */
  ghost predicate Lists(jar: Jar, routes: seq<string>) {
    && Distinct(routes)
    && (forall r :: r in routes <==> IsRoute(jar, r))
    && (Lookup(jar, ROUTE) != "" ==> routes != [] && routes[0] == Lookup(jar, ROUTE))
  }

  method RouteCookieValues(jar: Jar) returns (routes: seq<string>)
    ensures Lists(jar, routes)
  {
    routes := [];
    var recent := Lookup(jar, ROUTE);
    if recent != "" {
      routes := [recent];
    }
    var todo := jar.Keys;
    while todo != {}
      invariant todo <= jar.Keys && Distinct(routes)
      invariant recent != "" ==> routes != [] && routes[0] == recent
      invariant forall r :: r in routes ==> IsRoute(jar, r)
      invariant forall name :: name in jar && jar[name] != "" && (name == ROUTE || (name !in todo && ROUTE_PREFIX <= name)) ==>
                  jar[name] in routes
      decreases todo
    {
      var name :| name in todo;
      todo := todo - {name};
      if ROUTE_PREFIX <= name && jar[name] != "" && jar[name] !in routes {
        routes := routes + [jar[name]];
      }
    }
  }

  // ---------------------------------------------------------------- the best route for a path

  predicate RouteCovers(route: string, path: string) {
    var prefix := TrimSlashes(route);
    path == prefix || prefix + "/" <= path
  }

  /** The first of the longest routes that cover the path. */
  function Best(routes: seq<string>, path: string): string {
    if routes == [] then ""
    else
      var best, last := Best(routes[..|routes| - 1], path), routes[|routes| - 1];
      if RouteCovers(last, path) && |last| > |best| then last else best
  }

  function BestRoute(routes: seq<string>, path: string): string {
    if path == "" then "" else Best(routes, path)
  }

  method BestRouteForPath(routes: seq<string>, path: string) returns (best: string)
    ensures best == BestRoute(routes, path)
  {
    best := "";
    if path == "" {
      return;
    }
    for i := 0 to |routes|
      invariant best == Best(routes[..i], path)
    {
      assert routes[..i + 1][..i] == routes[..i];
      var prefix := TrimSlashes(routes[i]);
      if path == prefix || prefix + "/" <= path {
        if |routes[i]| > |best| {
          best := routes[i];
        }
      }
    }
    assert routes[..|routes|] == routes;
  }

  lemma {:induction false} BestIsLongest(routes: seq<string>, path: string)
    ensures var best := Best(routes, path);
            && (best == "" || (best in routes && RouteCovers(best, path)))
            && forall r :: r in routes && RouteCovers(r, path) ==> |r| <= |best|
  {
    hide RouteCovers;
    if routes != [] {
      BestIsLongest(routes[..|routes| - 1], path);
      assert forall r :: r in routes <==> r in routes[..|routes| - 1] || r == routes[|routes| - 1];
    }
  }

  lemma {:induction false} SlashesApart(s: string)
    ensures exists slashes :: AllSlashes(slashes) && s == TrimSlashes(s) + slashes
  {
    if s != "" && s[|s| - 1] == '/' {
      var init := s[..|s| - 1];
      SlashesApart(init);
      var slashes :| AllSlashes(slashes) && init == TrimSlashes(init) + slashes;
      assert s == init + "/" == TrimSlashes(s) + (slashes + "/") && AllSlashes(slashes + "/");
    } else {
      assert AllSlashes("") && s == s + "";
    }
  }

  /** A route covers its path, whatever slashes stand behind that, and what follows a slash behind it. */
  lemma RouteCoversIff(route: string, path: string)
    ensures RouteCovers(route, path) <==>
            exists base, slashes ::
              && route == base + slashes && AllSlashes(slashes) && (base != "" ==> base[|base| - 1] != '/')
              && (path == base || exists rest: string :: path == base + "/" + rest)
  {
    hide TrimSlashes, AllSlashes;
    TrimSlashesResult(route);
    SlashesApart(route);
    var prefix := TrimSlashes(route);
    var tail :| AllSlashes(tail) && route == prefix + tail;
    if prefix + "/" <= path {
      assert path == prefix + "/" + path[|prefix| + 1..];
    }
    forall base, slashes | route == base + slashes && AllSlashes(slashes) && (base != "" ==> base[|base| - 1] != '/')
      ensures base == prefix
    {
      TrimSlashesDrops(base, slashes);
    }
  }

  /** A part without a name is no cookie. */
  lemma NamelessIsNoCookie(before: string, value: string)
    requires AllSpaces(before)
    ensures CookieOf(before + "=" + value) == None
  {
    hide AllSpaces;
    TrimLeftDrops(before, "=" + value);
    assert before + "=" + value == before + ("=" + value);
    TrimRightResult("=" + value);
    EqualsStays("=" + value);
    var pair := TrimSpace(before + "=" + value);
    assert pair[0] == '=' && Find(pair, '=') == 0 && pair[..0] == "";
  }

  lemma {:induction false} EqualsStays(s: string)
    requires s != "" && s[0] == '='
    ensures TrimRight(s) != "" && TrimRight(s)[0] == '='
  {
    if IsSpace(s[|s| - 1]) {
      EqualsStays(s[..|s| - 1]);
    }
  }

  // ---------------------------------------------------------------- the route of a request

  /** Given the routes in some order; `refPath` is the path of the Referer, if any. */
  function Chosen(jar: Jar, routes: seq<string>, path: string, refPath: string): string {
    if path == "/" || routes == [] then ""
    else if BestRoute(routes, path) != "" then BestRoute(routes, path)
    else if BestRoute(routes, refPath) != "" then BestRoute(routes, refPath)
    else if |routes| == 1 then routes[0]
    else Lookup(jar, ROUTE)
  }

  method GetRouteCookieForRequest(jar: Jar, path: string, refPath: string) returns (route: string, ghost routes: seq<string>)
    ensures path == "/" ==> route == ""
    ensures path != "/" ==> Lists(jar, routes) && route == Chosen(jar, routes, path, refPath)
  {
    hide Lists, Best;
    routes := [];
    if path == "/" {
      return "", [];
    }
    var listed := RouteCookieValues(jar);
    routes := listed;
    if |listed| == 0 {
      return "", routes;
    }
    route := BestRouteForPath(listed, path);
    if route != "" {
      return;
    }
    route := BestRouteForPath(listed, refPath);
    if route != "" {
      return;
    }
    if |listed| == 1 {
      return listed[0], routes;
    }
    route := Lookup(jar, ROUTE);
  }

  // ---------------------------------------------------------------- independence of the order

  /** A route that ends in at most one slash. */
  predicate OneSlash(route: string) {
    !HasSuffix(route, "//")
  }

  /** All routes the gateway writes are of this kind, canonical and legacy ones alike. */
  lemma GatewayRoutesHaveOneSlash(username: string, sp: string)
    requires username != "" && '/' !in username && sp != "" && sp[0] == '/' && (sp == "/" || sp[|sp| - 1] != '/')
    ensures OneSlash("/proxy/" + username + sp) && OneSlash("/proxy" + sp)
  {
    EndsInOneSlash("/proxy/" + username, sp);
    EndsInOneSlash("/proxy", sp);
  }

  lemma EndsInOneSlash(mount: string, sp: string)
    requires mount != "" && mount[|mount| - 1] != '/' && sp != "" && (sp == "/" || sp[|sp| - 1] != '/')
    ensures OneSlash(mount + sp)
  {
    var route := mount + sp;
    assert |route| >= 2 && route[|route| - 2..] == [route[|route| - 2], route[|route| - 1]];
    assert sp == "/" ==> route[|route| - 2] == mount[|mount| - 1];
    assert sp != "/" ==> route[|route| - 1] == sp[|sp| - 1];
  }

  lemma OneSlashTrims(route: string)
    requires OneSlash(route)
    ensures var p := TrimSlashes(route);
            (route == p && (p != "" ==> p[|p| - 1] != '/')) || (route == p + "/" && (p != "" ==> p[|p| - 1] != '/'))
  {
    TrimSlashesResult(route);
    assert |route| >= 2 ==> route[|route| - 2..] == [route[|route| - 2], route[|route| - 1]];
    if route != "" && route[|route| - 1] == '/' {
      var init := route[..|route| - 1];
      assert TrimSlashes(init) == init;
      assert route == init + "/";
    }
  }

  /** Equally long routes that cover the same path are the same. */
  lemma CoveringRoutesDiffer(a: string, b: string, path: string)
    requires OneSlash(a) && OneSlash(b) && RouteCovers(a, path) && RouteCovers(b, path) && |a| == |b|
    ensures a == b
  {
    OneSlashTrims(a);
    OneSlashTrims(b);
    var p, q := TrimSlashes(a), TrimSlashes(b);
    assert p <= path && q <= path;
    hide TrimSlashes, OneSlash;
    if |p| == |q| {
      assert p == path[..|p|] && q == path[..|q|];
    }
  }

  lemma BestIgnoresOrder(a: seq<string>, b: seq<string>, path: string)
    requires (forall r :: r in a <==> r in b) && forall r :: r in a ==> OneSlash(r) && r != ""
    ensures Best(a, path) == Best(b, path)
  {
    BestIsLongest(a, path);
    BestIsLongest(b, path);
    var x, y := Best(a, path), Best(b, path);
    hide Best, RouteCovers, OneSlash;
    if x != "" && y != "" {
      CoveringRoutesDiffer(x, y, path);
    }
  }

  lemma SameSingleton(a: seq<string>, b: seq<string>)
    requires Distinct(a) && Distinct(b) && (forall r :: r in a <==> r in b)
    ensures (a == [] <==> b == []) && (|a| == 1 <==> |b| == 1) && (|a| == 1 ==> a == b)
  {
    assert a != [] ==> a[0] in b;
    assert b != [] ==> b[0] in a;
    assert |a| > 1 ==> a[0] in b && a[1] in b;
    assert |b| > 1 ==> b[0] in a && b[1] in a;
  }

  /** When no route ends in two slashes, the chosen route does not depend on the map's order. */
  lemma ChosenIgnoresOrder(jar: Jar, a: seq<string>, b: seq<string>, path: string, refPath: string)
    requires Lists(jar, a) && Lists(jar, b) && forall r :: r in a ==> OneSlash(r)
    ensures Chosen(jar, a, path, refPath) == Chosen(jar, b, path, refPath)
  {
    hide OneSlash, Best, IsRoute, Lookup;
    ListedAreNonempty(jar, a);
    assert forall r :: r in a <==> r in b;
    SameSingleton(a, b);
    BestIgnoresOrder(a, b, path);
    BestIgnoresOrder(a, b, refPath);
  }

  lemma ListedAreNonempty(jar: Jar, routes: seq<string>)
    requires Lists(jar, routes)
    ensures forall r :: r in routes ==> r != ""
  {
    assert forall r :: r in routes ==> IsRoute(jar, r);
  }

  // ---------------------------------------------------------------- when the order matters, exactly

  /** One of the longest routes that cover the path. */
  ghost predicate IsLongest(jar: Jar, path: string, route: string) {
    && IsRoute(jar, route) && RouteCovers(route, path)
    && forall q :: IsRoute(jar, q) && RouteCovers(q, path) ==> |q| <= |route|
  }

  ghost predicate SomeCovers(jar: Jar, path: string) {
    exists r :: IsRoute(jar, r) && RouteCovers(r, path)
  }

  /** The longest covering route is unique (or there is none), or the recent route is one of them. */
  ghost predicate Settled(jar: Jar, path: string) {
    || (forall q, r :: IsLongest(jar, path, q) && IsLongest(jar, path, r) ==> q == r)
    || IsLongest(jar, path, Lookup(jar, ROUTE))
  }

  /** Every order in which the map can be walked gives the same best route. */
  ghost predicate OrderFree(jar: Jar, path: string) {
    forall a, b :: Lists(jar, a) && Lists(jar, b) ==> BestRoute(a, path) == BestRoute(b, path)
  }

  lemma {:induction false} FirstLongestWins(routes: seq<string>, path: string, i: nat)
    requires i < |routes| && routes[i] != "" && RouteCovers(routes[i], path)
    requires forall j :: 0 <= j < |routes| && RouteCovers(routes[j], path) ==> |routes[j]| <= |routes[i]|
    requires forall j :: 0 <= j < i && RouteCovers(routes[j], path) ==> |routes[j]| < |routes[i]|
    ensures Best(routes, path) == routes[i]
  {
    hide RouteCovers;
    var init := routes[..|routes| - 1];
    if i < |init| {
      FirstLongestWins(init, path, i);
    } else {
      BestIsLongest(init, path);
      BestInPrefix(init, path, routes[i]);
    }
  }

  /** What the routes before a longer one give is shorter. */
  lemma BestInPrefix(init: seq<string>, path: string, longer: string)
    requires longer != "" && forall j :: 0 <= j < |init| && RouteCovers(init[j], path) ==> |init[j]| < |longer|
    ensures |Best(init, path)| < |longer|
  {
    BestIsLongest(init, path);
    hide RouteCovers, Best;
  }

  /** The best route is one of the longest, if any route covers the path. */
  lemma BestIsOneOfLongest(jar: Jar, routes: seq<string>, path: string)
    requires Lists(jar, routes)
    ensures SomeCovers(jar, path) ==> IsLongest(jar, path, Best(routes, path))
    ensures !SomeCovers(jar, path) ==> Best(routes, path) == ""
  {
    BestIsLongest(routes, path);
    ListedAreNonempty(jar, routes);
    hide RouteCovers, Best, IsRoute, Lookup;
  }

  lemma RecentWins(jar: Jar, routes: seq<string>, path: string)
    requires Lists(jar, routes) && IsLongest(jar, path, Lookup(jar, ROUTE))
    ensures Best(routes, path) == Lookup(jar, ROUTE)
  {
    RecentIsListed(jar, routes);
    FirstLongestWins(routes, path, 0);
  }

  lemma RecentIsListed(jar: Jar, routes: seq<string>)
    requires Lists(jar, routes) && IsRoute(jar, Lookup(jar, ROUTE))
    ensures routes != [] && routes[0] == Lookup(jar, ROUTE) && forall j :: 0 <= j < |routes| ==> IsRoute(jar, routes[j])
  {
    assert forall j :: 0 <= j < |routes| ==> routes[j] in routes;
    hide IsRoute;
  }

  lemma SettledIsOrderFree(jar: Jar, path: string)
    requires Settled(jar, path)
    ensures OrderFree(jar, path)
  {
    hide IsLongest, SomeCovers, Best, Lists, Lookup;
    forall a, b | Lists(jar, a) && Lists(jar, b)
      ensures BestRoute(a, path) == BestRoute(b, path)
    {
      BestIsOneOfLongest(jar, a, path);
      BestIsOneOfLongest(jar, b, path);
      if IsLongest(jar, path, Lookup(jar, ROUTE)) {
        RecentWins(jar, a, path);
        RecentWins(jar, b, path);
      }
    }
  }

  /** All routes of the jar, as a set. */
  ghost function RouteSet(jar: Jar): (routes: set<string>)
    ensures forall r :: r in routes <==> IsRoute(jar, r)
  {
    set name | name in jar && jar[name] != "" && (name == ROUTE || ROUTE_PREFIX <= name) :: jar[name]
  }

  lemma {:induction false} Enumerate(s: set<string>) returns (list: seq<string>)
    ensures Distinct(list) && forall r :: r in list <==> r in s
  {
    if s == {} {
      list := [];
    } else {
      var r :| r in s;
      list := Enumerate(s - {r});
      list := list + [r];
    }
  }

  /** The routes can be walked with any route other than the recent one in front. */
  lemma WalkWithFirst(jar: Jar, route: string) returns (routes: seq<string>, i: nat)
    requires IsRoute(jar, route) && route != Lookup(jar, ROUTE)
    ensures Lists(jar, routes) && i < |routes| && routes[i] == route
    ensures forall j :: 0 <= j < i ==> routes[j] == Lookup(jar, ROUTE)
  {
    var recent := Lookup(jar, ROUTE);
    var front := if recent == "" then [] else [recent];
    RecentIsRoute(jar);
    hide IsRoute;
    var rest := Enumerate(RouteSet(jar) - {recent, route});
    routes, i := front + [route] + rest, |front|;
    assert forall r :: r in routes <==> r in front || r == route || r in rest;
  }

  lemma RecentIsRoute(jar: Jar)
    ensures IsRoute(jar, Lookup(jar, ROUTE)) <==> Lookup(jar, ROUTE) != ""
  {
  }

  /** Walked like that, the route wins if it is one of the longest and the recent one is not. */
  lemma FrontRouteWins(jar: Jar, path: string, route: string) returns (routes: seq<string>)
    requires IsLongest(jar, path, route) && !IsLongest(jar, path, Lookup(jar, ROUTE))
    ensures Lists(jar, routes) && Best(routes, path) == route
  {
    var i;
    routes, i := WalkWithFirst(jar, route);
    ListedAreRoutes(jar, routes);
    hide RouteCovers, Lists, Best, Lookup;
    forall j | 0 <= j < i && RouteCovers(routes[j], path)
      ensures |routes[j]| < |route|
    {
      assert IsRoute(jar, routes[j]) && routes[j] == Lookup(jar, ROUTE);
    }
    hide IsRoute;
    FirstLongestWins(routes, path, i);
  }

  lemma ListedAreRoutes(jar: Jar, routes: seq<string>)
    requires Lists(jar, routes)
    ensures forall j :: 0 <= j < |routes| ==> IsRoute(jar, routes[j]) && routes[j] != ""
  {
    assert forall j :: 0 <= j < |routes| ==> routes[j] in routes;
  }

  /**
    * The best route for a path is the same in every map order if and only if the longest
    * covering route is unique or the recent route, which is always looked at first, is among
    * the longest.
    */
  lemma OrderFreeIffSettled(jar: Jar, path: string)
    requires path != ""
    ensures OrderFree(jar, path) <==> Settled(jar, path)
  {
    if Settled(jar, path) {
      SettledIsOrderFree(jar, path);
    } else {
      hide IsLongest, Best, Lists, Lookup;
      var q, r :| IsLongest(jar, path, q) && IsLongest(jar, path, r) && q != r;
      var a := FrontRouteWins(jar, path, q);
      var b := FrontRouteWins(jar, path, r);
      assert BestRoute(a, path) != BestRoute(b, path);
    }
  }

  /** The path that decides: the request's own if a route covers it, else the Referer's. */
  ghost function Decider(jar: Jar, path: string, refPath: string): string {
    if path != "" && SomeCovers(jar, path) then path else refPath
  }

  /**
    * The chosen route of a whole request, likewise: it is the same in every map order if and
    * only if the best route for the deciding path is settled.
    */
  lemma ChosenIsOrderFreeIff(jar: Jar, path: string, refPath: string)
    requires path != "/"
    ensures var d := Decider(jar, path, refPath);
            (forall a, b :: Lists(jar, a) && Lists(jar, b) ==> Chosen(jar, a, path, refPath) == Chosen(jar, b, path, refPath))
            <==> (d == "" || Settled(jar, d))
  {
    var d := Decider(jar, path, refPath);
    hide Lists, Settled, SomeCovers, Best, Lookup;
    if d != "" {
      OrderFreeIffSettled(jar, d);
    }
    forall a, b | Lists(jar, a) && Lists(jar, b)
      ensures d == "" || BestRoute(a, d) == BestRoute(b, d) <==> Chosen(jar, a, path, refPath) == Chosen(jar, b, path, refPath)
    {
      ChosenByDecider(jar, a, path, refPath);
      ChosenByDecider(jar, b, path, refPath);
      SameFallback(jar, a, b);
      if d != "" {
        BestIsOneOfLongest(jar, a, d);
        BestIsOneOfLongest(jar, b, d);
        LongestIsNonempty(jar, d, Best(a, d));
        LongestIsNonempty(jar, d, Best(b, d));
      }
    }
  }

  /** What is chosen when no route covers anything. */
  function Fallback(jar: Jar, routes: seq<string>): string {
    if routes == [] then "" else if |routes| == 1 then routes[0] else Lookup(jar, ROUTE)
  }

  lemma ChosenByDecider(jar: Jar, routes: seq<string>, path: string, refPath: string)
    requires Lists(jar, routes) && path != "/"
    ensures var d := Decider(jar, path, refPath);
            Chosen(jar, routes, path, refPath) ==
            if d != "" && BestRoute(routes, d) != "" then BestRoute(routes, d) else Fallback(jar, routes)
  {
    BestIsOneOfLongest(jar, routes, path);
    LongestIsNonempty(jar, path, Best(routes, path));
    NoRoutesNoBest(path);
    NoRoutesNoBest(refPath);
    hide Lists, IsLongest, SomeCovers, Best, Lookup;
  }

  lemma NoRoutesNoBest(path: string)
    ensures BestRoute([], path) == ""
  {
  }

  lemma LongestIsNonempty(jar: Jar, path: string, route: string)
    ensures IsLongest(jar, path, route) ==> route != ""
  {
    hide RouteCovers;
  }

  lemma SameFallback(jar: Jar, a: seq<string>, b: seq<string>)
    requires Lists(jar, a) && Lists(jar, b)
    ensures Fallback(jar, a) == Fallback(jar, b)
  {
    hide IsRoute, Lookup;
    assert forall r :: r in a <==> r in b;
    SameSingleton(a, b);
  }

  /** A jar for which it matters: two equally long routes, one ending in two slashes, cover the path. */
  lemma DoubleSlashDepends() returns (jar: Jar, a: seq<string>, b: seq<string>)
    ensures jar == map["goprox_route_1" := "/x//", "goprox_route_2" := "/x/y"]
    ensures Lists(jar, a) && Lists(jar, b)
    ensures Chosen(jar, a, "/x/y/z", "") == "/x//" && Chosen(jar, b, "/x/y/z", "") == "/x/y"
  {
    jar := map["goprox_route_1" := "/x//", "goprox_route_2" := "/x/y"];
    a, b := ["/x//", "/x/y"], ["/x/y", "/x//"];
    TwoRoutes(jar);
    SlashesCover();
    assert "/x//"[3] != "/x/y"[3];
    hide RouteCovers;
    BestOfTwo("/x//", "/x/y", "/x/y/z");
    BestOfTwo("/x/y", "/x//", "/x/y/z");
    hide Best, IsRoute;
  }

  lemma TwoRoutes(jar: Jar)
    requires jar == map["goprox_route_1" := "/x//", "goprox_route_2" := "/x/y"]
    ensures forall r :: IsRoute(jar, r) <==> r == "/x//" || r == "/x/y"
    ensures Lookup(jar, ROUTE) == ""
  {
    assert ROUTE_PREFIX <= "goprox_route_1" && ROUTE_PREFIX <= "goprox_route_2";
    assert jar["goprox_route_1"] == "/x//" && jar["goprox_route_2"] == "/x/y";
    assert ROUTE !in jar by {
      assert |ROUTE| != |"goprox_route_1"| && |ROUTE| != |"goprox_route_2"|;
    }
  }

  lemma SlashesCover()
    ensures RouteCovers("/x//", "/x/y/z") && RouteCovers("/x/y", "/x/y/z")
  {
    assert TrimSlashes("/x//") == "/x" by {
      assert "/x//"[..3] == "/x/" && "/x/"[..2] == "/x";
    }
    assert "/x" + "/" <= "/x/y/z" && "/x/y" + "/" <= "/x/y/z";
  }

  lemma BestOfTwo(a: string, b: string, path: string)
    requires RouteCovers(a, path) && RouteCovers(b, path) && |a| == |b| > 0
    ensures Best([a, b], path) == a
  {
    assert [a, b][..1] == [a] && [a][..0] == [];
    assert Best([], path) == "";
    assert Best([a], path) == a;
  }

  // ---------------------------------------------------------------- the most recent visit

  /** A proxied response, and whether it was for an image or favicon only. */
  datatype Visit = Visit(prefix: string, passive: bool)

  /** The cookies of a response; `name` gives the per-service cookie name. */
  function Visited(jar: Jar, v: Visit, name: string -> string): Jar {
    var own := jar[ROUTE_PREFIX + name(v.prefix) := v.prefix];
    if v.passive then own else own[ROUTE := v.prefix]
  }

  function AfterVisits(jar: Jar, visits: seq<Visit>, name: string -> string): Jar {
    if visits == [] then jar else Visited(AfterVisits(jar, visits[..|visits| - 1], name), visits[|visits| - 1], name)
  }

  function LastActive(visits: seq<Visit>): Option<string> {
    if visits == [] then None
    else if !visits[|visits| - 1].passive then Some(visits[|visits| - 1].prefix)
    else LastActive(visits[..|visits| - 1])
  }

  lemma {:induction false} RecentIsLastActive(jar: Jar, visits: seq<Visit>, name: string -> string)
    requires LastActive(visits).Some?
    ensures Lookup(AfterVisits(jar, visits, name), ROUTE) == LastActive(visits).value
  {
    var init, last := visits[..|visits| - 1], visits[|visits| - 1];
    assert |ROUTE_PREFIX| > |ROUTE|;
    assert ROUTE_PREFIX + name(last.prefix) != ROUTE;
    if last.passive {
      RecentIsLastActive(jar, init, name);
    }
  }

  /**
    * After any visits, from any cookies, a request without a Referer whose path lies under no
    * route goes to the service visited last, not counting images and favicons: whatever the
    * cookie names are, and in whatever order the map is walked.
    */
  lemma BareRequestFollowsLastVisit(jar: Jar, visits: seq<Visit>, name: string -> string, routes: seq<string>, path: string)
    requires LastActive(visits).Some? && LastActive(visits).value != ""
    requires Lists(AfterVisits(jar, visits, name), routes) && path != "/" && BestRoute(routes, path) == ""
    ensures Chosen(AfterVisits(jar, visits, name), routes, path, "") == LastActive(visits).value
  {
    RecentIsLastActive(jar, visits, name);
    hide AfterVisits, LastActive, Best, IsRoute, Lookup;
  }

  // ---------------------------------------------------------------- what the browser sends

  /** A cookie the header syntax can carry. */
  predicate Plain(c: (string, string)) {
    && c.0 != "" && Trimmed(c.0) && '=' !in c.0 && ';' !in c.0
    && Trimmed(c.1) && ';' !in c.1
  }

  predicate AllPlain(cookies: seq<(string, string)>) {
    forall c :: c in cookies ==> Plain(c)
  }

  function PartsOf(cookies: seq<(string, string)>): (parts: seq<string>)
    ensures |parts| == |cookies|
    ensures forall i :: 0 <= i < |parts| ==> parts[i] == (if i == 0 then "" else " ") + cookies[i].0 + "=" + cookies[i].1
  {
    seq(|cookies|, i requires 0 <= i < |cookies| => (if i == 0 then "" else " ") + cookies[i].0 + "=" + cookies[i].1)
  }

  function JarOf(cookies: seq<(string, string)>): Jar {
    if cookies == [] then map[] else JarOf(cookies[..|cookies| - 1])[cookies[|cookies| - 1].0 := cookies[|cookies| - 1].1]
  }

  lemma CookieOfPlain(c: (string, string), space: string)
    requires Plain(c) && (space == "" || space == " ")
    ensures CookieOf(space + c.0 + "=" + c.1) == Some(c)
  {
    hide TrimSpace, Find;
    var pair := c.0 + ['='] + c.1;
    PairIsTrimmed(c.0, c.1);
    TrimSpaceFixes(pair);
    assert space + c.0 + "=" + c.1 == space + pair;
    LeadingSpace(pair, space);
    FindAt(c.0, c.1, '=');
    assert pair[..|c.0|] == c.0 && pair[|c.0| + 1..] == c.1;
    TrimSpaceFixes(c.0);
    TrimSpaceFixes(c.1);
  }

  lemma PairIsTrimmed(name: string, value: string)
    requires name != "" && Trimmed(name) && Trimmed(value)
    ensures Trimmed(name + ['='] + value)
  {
    var pair := name + ['='] + value;
    assert pair[0] == name[0] && pair[|pair| - 1] == (if value == "" then '=' else value[|value| - 1]);
  }

  lemma LeadingSpace(s: string, space: string)
    requires space == "" || space == " "
    ensures TrimSpace(space + s) == TrimSpace(s)
  {
    if space == "" {
      assert space + s == s;
    } else {
      assert (space + s)[1..] == s;
    }
  }

  lemma {:induction false} CookiesInPlain(cookies: seq<(string, string)>)
    requires AllPlain(cookies)
    ensures CookiesIn(PartsOf(cookies)) == JarOf(cookies)
  {
    hide CookieOf, Plain;
    if cookies != [] {
      var init, last := cookies[..|cookies| - 1], cookies[|cookies| - 1];
      assert last in cookies && forall c :: c in init ==> c in cookies;
      CookiesInPlain(init);
      CookieOfPlain(last, if |init| == 0 then "" else " ");
      assert PartsOf(cookies)[..|init|] == PartsOf(init);
    }
  }

  lemma PartHasNoSemicolon(c: (string, string), space: string)
    requires Plain(c) && (space == "" || space == " ")
    ensures ';' !in space + c.0 + "=" + c.1
  {
  }

  /** The header "a=1; b=2" parses to the jar the browser sent. */
  lemma HeaderRoundTrip(cookies: seq<(string, string)>)
    requires AllPlain(cookies) && cookies != []
    ensures Cookies(Join(PartsOf(cookies), ';')) == JarOf(cookies)
  {
    hide Plain, CookiesIn, JarOf, Split, Join;
    var parts := PartsOf(cookies);
    forall p | p in parts
      ensures ';' !in p
    {
      var i :| 0 <= i < |parts| && parts[i] == p;
      assert cookies[i] in cookies;
      PartHasNoSemicolon(cookies[i], if i == 0 then "" else " ");
    }
    SplitOfJoin(parts, ';');
    CookiesInPlain(cookies);
  }
}
