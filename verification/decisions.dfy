/**
  * What the gateway does with a request: the virtual-host check, the routes of its mux, and
  * the chain of fallbacks behind them, as a decision over the registry, the session and the
  * request.  Which route cookie applies is left open: `route` may be any function.
  */
module Decisions {
  import opened Basics
  import opened Text
  import opened ServicePaths
  import opened UserConfig
  import opened UrlPaths
  import opened Routing
  import Hosts = HostIndex

  datatype Session = Session(valid: bool, user: string)

  /**
    * `refPath` is the path of a Referer from the gateway's own host (empty otherwise), `referer`
    * the header itself; `route` gives the route cookie for a path and a Referer.
    */
  datatype Request = Request(
    verb: string, path: string, query: string, refPath: string, referer: string,
    route: (string, string) -> string,
    sameOrigin: bool, wantsHtml: bool, upgrade: bool, formPost: bool, refererIsProxied: bool)

  datatype Page = Api | Favicon | Logout | SecondFactor | LoginStep | LoginPage | Dashboard

  datatype Decision =
    | Forward(username: string, service: Service, path: string)
    | Redirect(target: string)
    | LoginFirst
    | MainLogin
    | Refuse(status: nat)
    | Gateway(page: Page)

  predicate LoggedIn(s: Session) {
    s.valid && s.user != ""
  }

  // ---------------------------------------------------------------- forwarding

  function Proxied(m: Match, r: Request): Decision {
    if r.upgrade && !m.service.webSocket then Refuse(403) else Forward(m.username, m.service, m.remaining)
  }

  function AsIs(m: Match, r: Request): Decision {
    if r.upgrade && !m.service.webSocket then Refuse(403) else Forward(m.username, m.service, r.path)
  }

  /** A route of the user's own, by canonical or legacy path. */
  function MatchRoute(reg: Registry, route: string, user: string): Option<Match> {
    var found := Found(reg, route);
    var m := if found.Some? then found else FoundLegacy(reg, route, user);
    var pathUser := UsernameFromProxyPath(route);
    if pathUser != "" && pathUser != user then None else m
  }

  // ---------------------------------------------------------------- the fallbacks

  function RefererProxy(reg: Registry, s: Session, r: Request): Option<Decision> {
    if !LoggedIn(s) || r.refPath == "" then None
    else
      var m := MatchRoute(reg, r.refPath, s.user);
      if m.None? then None else Some(AsIs(m.value, r))
  }

  function RouteCookieProxy(reg: Registry, s: Session, r: Request): Option<Decision> {
    var route := r.route(r.path, r.referer);
    if route == "" then None
    else if !LoggedIn(s) then Some(LoginFirst)
    else
      var m := MatchRoute(reg, route, s.user);
      if m.None? then None else Some(AsIs(m.value, r))
  }

  function ById(services: seq<Service>, id: string): Option<Service> {
    if services == [] then None
    else if services[0].id == id then Some(services[0])
    else ById(services[1..], id)
  }

  function DefaultProxy(reg: Registry, s: Session, r: Request): Option<Decision> {
    if !LoggedIn(s) || s.user !in reg || reg[s.user].defaultService == "" then None
    else
      var svc := ById(reg[s.user].services, reg[s.user].defaultService);
      if svc.None? then None else Some(AsIs(Match(s.user, svc.value, r.path, false), r))
  }

  function OrElse(a: Option<Decision>, b: Option<Decision>): Option<Decision> {
    if a.Some? then a else b
  }

  function Settle(a: Option<Decision>, d: Decision): Decision {
    if a.Some? then a.value else d
  }

  /** Referer, then route cookie, then default service. */
  function Fallbacks(reg: Registry, s: Session, r: Request): Option<Decision> {
    OrElse(RefererProxy(reg, s, r), OrElse(RouteCookieProxy(reg, s, r), DefaultProxy(reg, s, r)))
  }

  predicate HasExtension(segment: string) {
    0 < LastIndex(segment, '.') < |segment| - 1
  }

  const ASSET_ROOTS := [
    "/api/", "/plugins/", "/_nuxt/", "/_next/", "/assets/", "/static/", "/vendors/", "/files/", "/favicon.",
    "/manifest.webmanifest"]

  /** A page rather than an asset or an API call. */
  predicate BarePathIsPage(p: string) {
    var lower := ToLower(p[..Find(p, '?')]);
    && (forall segment :: segment in Split(lower, '/') ==> !HasExtension(segment))
    && (forall root :: root in ASSET_ROOTS ==> !(root <= lower))
  }

  method LooksLikePage(p: string) returns (page: bool)
    ensures page == BarePathIsPage(p)
  {
    hide HasExtension;
    var lower := ToLower(p[..Find(p, '?')]);
    var segments := Split(lower, '/');
    for i := 0 to |segments|
      invariant forall segment :: segment in segments[..i] ==> !HasExtension(segment)
    {
      assert segments[..i + 1] == segments[..i] + [segments[i]] && segments[i] in segments;
      if HasExtension(segments[i]) {
        return false;
      }
    }
    assert segments[..|segments|] == segments;
    var roots := ASSET_ROOTS;
    for i := 0 to |roots|
      invariant forall root :: root in roots[..i] ==> !(root <= lower)
    {
      assert roots[..i + 1] == roots[..i] + [roots[i]] && roots[i] in roots;
      if roots[i] <= lower {
        return false;
      }
    }
    assert roots[..|roots|] == roots;
    page := true;
  }

  function DefaultPage(reg: Registry, s: Session, r: Request): Option<Decision> {
    if BarePathIsPage(r.path) then DefaultProxy(reg, s, r) else None
  }

  // ---------------------------------------------------------------- bare paths

  predicate IsRead(r: Request) {
    r.verb == "GET" || r.verb == "HEAD"
  }

  function QueryOf(r: Request): string {
    if r.query == "" then "" else "?" + r.query
  }

  /** The service a bare path belongs to: redirected to, or forwarded to when a redirect would lose the body. */
  function BareProxy(reg: Registry, s: Session, r: Request): Option<Decision> {
    var svc := BareService(reg, s.user, r.path);
    BareMeans(reg, s.user, r.path);
    if svc.None? then None
    else if IsRead(r) then Some(Redirect(BareTarget(s.user, svc.value, r.path) + QueryOf(r)))
    else Some(Proxied(Match(s.user, svc.value, OrSlash(r.path[|svc.value.path|..]), false), r))
  }

  /** The page's own service if it is root-absolute, and whether the Referer settles the matter. */
  function RootAbsoluteReferer(reg: Registry, user: string, r: Request): (Option<Match>, bool) {
    if r.refPath == "" || !("/proxy/" <= r.refPath) then (None, false)
    else
      var found := Found(reg, r.refPath);
      var m := if found.Some? then found else FoundLegacy(reg, r.refPath, user);
      if m.None? || m.value.username != user || !m.value.service.rootAbsolute then (None, true) else (m, true)
  }

  function RootAbsolute(reg: Registry, s: Session, r: Request): Option<Decision> {
    if BareService(reg, s.user, r.path).Some? then None
    else
      var (own, canonical) := RootAbsoluteReferer(reg, s.user, r);
      var route := r.route(r.path, r.referer);
      var m := if own.None? && !canonical && route != "" then MatchRoute(reg, route, s.user) else own;
      if m.None? || !m.value.service.rootAbsolute then None else Some(AsIs(m.value, r))
  }

  function Bare(reg: Registry, s: Session, r: Request): Decision {
    if !s.valid && IsRead(r) && BarePathIsPage(r.path) then LoginFirst
    else
      var owned := if LoggedIn(s) then OrElse(BareProxy(reg, s, r), RootAbsolute(reg, s, r)) else None;
      Settle(OrElse(owned, OrElse(DefaultPage(reg, s, r), Fallbacks(reg, s, r))), Refuse(404))
  }

  // ---------------------------------------------------------------- the other routes

  function ProxyEscape(s: Session, r: Request): Option<Decision> {
    if r.query == "" || !LoggedIn(s) then None
    else
      var route := r.route("", r.refPath);
      if route == "" || !("/proxy/" + s.user + "/" <= route) then None
      else Some(Redirect(route + (if route[|route| - 1] == '/' then "" else "/") + "?" + r.query))
  }

  function HandleProxy(reg: Registry, s: Session, r: Request): Decision {
    if !LoggedIn(s) then LoginFirst
    else
      var found := Found(reg, r.path);
      if found.Some? then
        (if UsernameFromProxyPath(r.path) != s.user then Refuse(404) else Proxied(found.value, r))
      else
        var legacy := FoundLegacy(reg, r.path, s.user);
        if legacy.None? then Refuse(404) else Proxied(legacy.value, r)
  }

  function FindBackend(reg: Registry, s: Session, r: Request): Option<Match> {
    var own := if r.refPath == "" then None else MatchRoute(reg, r.refPath, s.user);
    var route := r.route(r.path, r.refPath);
    if own.Some? then own else if route == "" then None else MatchRoute(reg, route, s.user)
  }

  function BackendLogin(reg: Registry, s: Session, r: Request): Option<Decision> {
    if !LoggedIn(s) then None
    else
      var m := FindBackend(reg, s, r);
      if m.None? || (r.path == "/login" && r.formPost && !r.refererIsProxied) then None else Some(AsIs(m.value, r))
  }

  function LoginRoute(reg: Registry, s: Session, r: Request): Decision {
    if r.verb == "POST" then
      (if !r.sameOrigin then Refuse(403) else Settle(BackendLogin(reg, s, r), Gateway(LoginStep)))
    else if LoggedIn(s) then
      Settle(OrElse(RouteCookieProxy(reg, s, r), RefererProxy(reg, s, r)), Gateway(LoginPage))
    else
      Gateway(LoginPage)
  }

  /** The management calls the gateway answers itself. */
  predicate IsGatewayRoute(path: string, verb: string) {
    if path == "/api/services" then verb == "GET" || verb == "POST"
    else
      && "/api/services/" <= path && path != "/api/services/" && '/' !in path[14..]
      && (verb == "PUT" || verb == "DELETE")
  }

  function ApiRoute(reg: Registry, s: Session, r: Request): Decision {
    if IsGatewayRoute(r.path, r.verb) then Gateway(Api) else Settle(Fallbacks(reg, s, r), Refuse(404))
  }

  const SECOND_FACTOR := ["/login/2fa", "/2fa/setup", "/2fa/qr", "/2fa/disable"]

  function Mux(reg: Registry, s: Session, r: Request): Decision {
    if CleanPath(r.path) != r.path then Redirect(CleanPath(r.path) + QueryOf(r))
    else if r.path == "/api" || r.path == "/proxy" then Redirect(r.path + "/" + QueryOf(r))
    else if "/api/" <= r.path then ApiRoute(reg, s, r)
    else if r.path == "/favicon.ico" then Gateway(Favicon)
    else if r.path == "/logout" then Gateway(Logout)
    else if r.path in SECOND_FACTOR then Gateway(SecondFactor)
    else if r.path == "/login" then LoginRoute(reg, s, r)
    else if "/proxy/" <= r.path then HandleProxy(reg, s, r)
    else if r.path != "/" then Bare(reg, s, r)
    else Settle(OrElse(ProxyEscape(s, r), RefererProxy(reg, s, r)), Gateway(Dashboard))
  }

  function VirtualHost(target: Hosts.Target, s: Session, r: Request): Decision {
    if !LoggedIn(s) then (if r.wantsHtml then MainLogin else Refuse(401))
    else if s.user != target.username then Refuse(404)
    else if r.upgrade && !target.service.webSocket then Refuse(403)
    else Forward(target.username, target.service, r.path)
  }

  /** `target` is what the host index says of the request's Host header. */
  function Decide(reg: Registry, target: Option<Hosts.Target>, s: Session, r: Request): Decision {
    if target.Some? then VirtualHost(target.value, s, r) else Mux(reg, s, r)
  }

  // ---------------------------------------------------------------- forwards go to one's own services

  /** If this is a forward, the session is valid and the service is the session user's own. */
  predicate Own(reg: Registry, s: Session, d: Decision) {
    d.Forward? ==> LoggedIn(s) && d.username == s.user && d.service in ServicesOf(reg, s.user)
  }

  predicate OwnMatch(reg: Registry, user: string, m: Option<Match>) {
    m.Some? ==> m.value.username == user && m.value.service in ServicesOf(reg, user)
  }

  lemma MatchRouteIsOwn(reg: Registry, route: string, user: string)
    ensures OwnMatch(reg, user, MatchRoute(reg, route, user))
  {
    FoundMeans(reg, route);
    FoundLegacyMeans(reg, route, user);
    hide Found, FoundLegacy, UsernameFromProxyPath, Covers, LegacyCovers, AfterUser;
  }

  lemma RefererIsOwn(reg: Registry, s: Session, r: Request)
    ensures RefererProxy(reg, s, r).Some? ==> Own(reg, s, RefererProxy(reg, s, r).value)
  {
    hide MatchRoute;
    MatchRouteIsOwn(reg, r.refPath, s.user);
  }

  lemma RouteCookieIsOwn(reg: Registry, s: Session, r: Request)
    ensures RouteCookieProxy(reg, s, r).Some? ==> Own(reg, s, RouteCookieProxy(reg, s, r).value)
  {
    hide MatchRoute;
    MatchRouteIsOwn(reg, r.route(r.path, r.referer), s.user);
  }

  lemma DefaultIsOwn(reg: Registry, s: Session, r: Request)
    ensures DefaultProxy(reg, s, r).Some? ==> Own(reg, s, DefaultProxy(reg, s, r).value)
  {
    hide ById;
    if s.user in reg {
      ByIdIsMember(reg[s.user].services, reg[s.user].defaultService);
    }
  }

  lemma FallbacksAreOwn(reg: Registry, s: Session, r: Request)
    ensures RefererProxy(reg, s, r).Some? ==> Own(reg, s, RefererProxy(reg, s, r).value)
    ensures RouteCookieProxy(reg, s, r).Some? ==> Own(reg, s, RouteCookieProxy(reg, s, r).value)
    ensures DefaultProxy(reg, s, r).Some? ==> Own(reg, s, DefaultProxy(reg, s, r).value)
  {
    hide *;
    RefererIsOwn(reg, s, r);
    RouteCookieIsOwn(reg, s, r);
    DefaultIsOwn(reg, s, r);
  }

  lemma {:induction false} ByIdIsMember(services: seq<Service>, id: string)
    ensures ById(services, id).Some? ==> ById(services, id).value in services
  {
    if services != [] && services[0].id != id {
      ByIdIsMember(services[1..], id);
    }
  }

  lemma RootAbsoluteIsOwn(reg: Registry, s: Session, r: Request)
    requires LoggedIn(s)
    ensures RootAbsolute(reg, s, r).Some? ==> Own(reg, s, RootAbsolute(reg, s, r).value)
  {
    FoundMeans(reg, r.refPath);
    FoundLegacyMeans(reg, r.refPath, s.user);
    MatchRouteIsOwn(reg, r.route(r.path, r.referer), s.user);
    hide Found, FoundLegacy, UsernameFromProxyPath, Covers, LegacyCovers, AfterUser, MatchRoute, BareService;
  }

  lemma BareProxyIsOwn(reg: Registry, s: Session, r: Request)
    requires LoggedIn(s)
    ensures BareProxy(reg, s, r).Some? ==> Own(reg, s, BareProxy(reg, s, r).value)
  {
    BareMeans(reg, s.user, r.path);
    hide BareService, BareCovers, BareTarget;
  }

  lemma BareIsOwn(reg: Registry, s: Session, r: Request)
    ensures Own(reg, s, Bare(reg, s, r))
  {
    hide Own, RefererProxy, RouteCookieProxy, DefaultProxy, BareProxy, RootAbsolute, BarePathIsPage;
    RefusalsAreOwn(reg, s);
    FallbacksAreOwn(reg, s, r);
    if LoggedIn(s) {
      RootAbsoluteIsOwn(reg, s, r);
      BareProxyIsOwn(reg, s, r);
    }
  }

  lemma RefusalsAreOwn(reg: Registry, s: Session)
    ensures forall d: Decision :: !d.Forward? ==> Own(reg, s, d)
  {
  }

  lemma HandleProxyIsOwn(reg: Registry, s: Session, r: Request)
    ensures Own(reg, s, HandleProxy(reg, s, r))
  {
    FoundMeans(reg, r.path);
    FoundLegacyMeans(reg, r.path, s.user);
    hide Found, FoundLegacy, UsernameFromProxyPath, Covers, LegacyCovers, AfterUser;
  }

  lemma LoginIsOwn(reg: Registry, s: Session, r: Request)
    ensures Own(reg, s, LoginRoute(reg, s, r))
  {
    FallbacksAreOwn(reg, s, r);
    MatchRouteIsOwn(reg, r.refPath, s.user);
    MatchRouteIsOwn(reg, r.route(r.path, r.refPath), s.user);
    hide MatchRoute, RefererProxy, RouteCookieProxy, DefaultProxy;
  }

  lemma MuxIsOwn(reg: Registry, s: Session, r: Request)
    ensures Own(reg, s, Mux(reg, s, r))
  {
    hide Own, RefererProxy, RouteCookieProxy, DefaultProxy, Bare, HandleProxy, LoginRoute, ProxyEscape, CleanPath, IsGatewayRoute;
    RefusalsAreOwn(reg, s);
    FallbacksAreOwn(reg, s, r);
    BareIsOwn(reg, s, r);
    HandleProxyIsOwn(reg, s, r);
    LoginIsOwn(reg, s, r);
    EscapeIsHome(s, r);
  }

  /** The same with a virtual host: it belongs to the user whose claim it is. */
  lemma DecisionIsOwn(reg: Registry, target: Option<Hosts.Target>, s: Session, r: Request)
    requires target.Some? ==> target.value.service in ServicesOf(reg, target.value.username)
    ensures Own(reg, s, Decide(reg, target, s, r))
  {
    MuxIsOwn(reg, s, r);
    hide Mux;
  }

  // ---------------------------------------------------------------- what path is forwarded

  /** The routes of the mux. */
  datatype Branch = Elsewhere | ApiPath | OwnPage | LoginPath | ProxyPath | BarePath | RootPath

  function BranchOf(p: string): Branch {
    if CleanPath(p) != p || p == "/api" || p == "/proxy" then Elsewhere
    else if "/api/" <= p then ApiPath
    else if p == "/favicon.ico" || p == "/logout" || p in SECOND_FACTOR then OwnPage
    else if p == "/login" then LoginPath
    else if "/proxy/" <= p then ProxyPath
    else if p != "/" then BarePath
    else RootPath
  }

  lemma MuxByBranch(reg: Registry, s: Session, r: Request)
    ensures var d := Mux(reg, s, r);
            match BranchOf(r.path)
            case Elsewhere => d.Redirect?
            case ApiPath => d == ApiRoute(reg, s, r)
            case OwnPage => d.Gateway?
            case LoginPath => d == LoginRoute(reg, s, r)
            case ProxyPath => d == HandleProxy(reg, s, r)
            case BarePath => d == Bare(reg, s, r)
            case RootPath => d == Settle(OrElse(ProxyEscape(s, r), RefererProxy(reg, s, r)), Gateway(Dashboard))
  {
    hide CleanPath, ApiRoute, LoginRoute, HandleProxy, Bare, ProxyEscape, RefererProxy, QueryOf, Settle, OrElse;
  }

  /** If this is a forward, the backend is asked for the path as the browser gave it. */
  predicate PathKept(r: Request, d: Decision) {
    d.Forward? ==> d.path == r.path
  }

  /** If this is a forward, prefix and forwarded path make up the request, but for a final slash. */
  predicate Rebuilds(prefix: string, r: Request, d: Decision) {
    d.Forward? ==> prefix + d.path == if r.path == prefix then prefix + "/" else r.path
  }

  lemma ChainKeepsPath(reg: Registry, s: Session, r: Request)
    ensures var all := [RefererProxy(reg, s, r), RouteCookieProxy(reg, s, r), DefaultProxy(reg, s, r),
                        RootAbsolute(reg, s, r), BackendLogin(reg, s, r), ProxyEscape(s, r)];
            forall o :: o in all && o.Some? ==> PathKept(r, o.value)
  {
    hide MatchRoute, ById, BareService, RootAbsoluteReferer, FindBackend;
  }

  /** Direct proxy requests ask the backend for what stands behind the service's prefix. */
  lemma HandleProxyRebuilds(reg: Registry, s: Session, r: Request)
    requires HandleProxy(reg, s, r).Forward?
    ensures var d := HandleProxy(reg, s, r);
            Rebuilds(if Found(reg, r.path).Some? then Mount(s.user, d.service.path) else "/proxy" + d.service.path, r, d)
  {
    NamedUser(reg, r.path);
    hide Found, FoundLegacy, UsernameFromProxyPath, Mount;
    if Found(reg, r.path).Some? {
      NothingIsLost(reg, r.path);
      CommonPrefix(Mount(s.user, Found(reg, r.path).value.service.path), r.path);
    } else {
      LegacyRebuilds(reg, r.path, s.user);
    }
  }

  lemma CommonPrefix(a: string, p: string)
    ensures a == p ==> a + "/" == p + "/"
  {
  }

  lemma LegacyRebuilds(reg: Registry, path: string, user: string)
    requires FoundLegacy(reg, path, user).Some?
    ensures var m := FoundLegacy(reg, path, user).value;
            var prefix := "/proxy" + m.service.path;
            prefix + m.remaining == if path == prefix then prefix + "/" else path
  {
    BestIsLongest(ServicesOf(reg, user), LegacyCoversPath(path));
    var m := FoundLegacy(reg, path, user).value;
    hide Best;
    var prefix := "/proxy" + m.service.path;
    assert prefix <= path && path == prefix + path[|prefix|..];
  }

  /** A write to a bare path asks the service for what stands behind its own path. */
  lemma BareWriteRebuilds(reg: Registry, s: Session, r: Request)
    requires BareProxy(reg, s, r).Some? && BareProxy(reg, s, r).value.Forward?
    ensures var d := BareProxy(reg, s, r).value;
            && BareService(reg, s.user, r.path) == Some(d.service) && Rebuilds(d.service.path, r, d)
  {
    BareMeans(reg, s.user, r.path);
    hide BareService;
    var svc := BareService(reg, s.user, r.path).value;
    assert svc.path <= r.path && r.path == svc.path + r.path[|svc.path|..];
  }

  /**
    * Nothing is lost on the way: below /proxy/ the mount (or the legacy prefix) and the
    * forwarded path make up the request, for writes to a service's bare path its path and the
    * forwarded one do, and everything else is forwarded under the path it came with.
    */
  lemma EveryForwardKeepsThePath(reg: Registry, target: Option<Hosts.Target>, s: Session, r: Request)
    requires Decide(reg, target, s, r).Forward?
    ensures var d := Decide(reg, target, s, r);
            if target.None? && BranchOf(r.path).ProxyPath? then
              Rebuilds(if Found(reg, r.path).Some? then Mount(s.user, d.service.path) else "/proxy" + d.service.path, r, d)
            else if target.None? && BranchOf(r.path).BarePath? && BareService(reg, s.user, r.path).Some? then
              !IsRead(r) && BareService(reg, s.user, r.path) == Some(d.service) && Rebuilds(d.service.path, r, d)
            else d.path == r.path
  {
    hide Mux, BranchOf, Found, BareService, Rebuilds, Mount;
    if target.None? {
      MuxByBranch(reg, s, r);
      MuxIsOwn(reg, s, r);
      if BranchOf(r.path).ProxyPath? {
        HandleProxyRebuilds(reg, s, r);
      } else if BranchOf(r.path).BarePath? {
        BareKinds(reg, s, r);
      } else {
        hide ApiRoute, LoginRoute, HandleProxy, Bare;
        OthersKeepPath(reg, s, r);
      }
    }
  }

  lemma OthersKeepPath(reg: Registry, s: Session, r: Request)
    ensures PathKept(r, ApiRoute(reg, s, r)) && PathKept(r, LoginRoute(reg, s, r))
    ensures PathKept(r, Settle(OrElse(ProxyEscape(s, r), RefererProxy(reg, s, r)), Gateway(Dashboard)))
  {
    ChainKeepsPath(reg, s, r);
    hide RefererProxy, RouteCookieProxy, DefaultProxy, BackendLogin, ProxyEscape, RootAbsolute, IsGatewayRoute;
  }

  lemma BareKinds(reg: Registry, s: Session, r: Request)
    requires LoggedIn(s) && Bare(reg, s, r).Forward?
    ensures var d := Bare(reg, s, r);
            if BareService(reg, s.user, r.path).Some? then
              !IsRead(r) && BareService(reg, s.user, r.path) == Some(d.service) && Rebuilds(d.service.path, r, d)
            else PathKept(r, d)
  {
    BareMeans(reg, s.user, r.path);
    ChainKeepsPath(reg, s, r);
    if BareService(reg, s.user, r.path).Some? && !IsRead(r) {
      BareWriteRebuilds(reg, s, r);
    }
    hide RefererProxy, RouteCookieProxy, DefaultProxy, RootAbsolute, BarePathIsPage, BareCovers, BareService, BareTarget,
      Rebuilds;
  }

  /** The default service is the first one with the configured ID. */
  lemma DefaultIsConfigured(reg: Registry, s: Session, r: Request)
    requires DefaultProxy(reg, s, r).Some? && DefaultProxy(reg, s, r).value.Forward?
    ensures var svc := DefaultProxy(reg, s, r).value.service;
            && s.user in reg && svc.id == reg[s.user].defaultService != ""
            && exists i :: 0 <= i < |reg[s.user].services| && reg[s.user].services[i] == svc
                           && forall j :: 0 <= j < i ==> reg[s.user].services[j].id != svc.id
  {
    ByIdIsFirst(reg[s.user].services, reg[s.user].defaultService);
    hide ById;
  }

  lemma {:induction false} ByIdIsFirst(services: seq<Service>, id: string)
    ensures ById(services, id).None? <==> forall i :: 0 <= i < |services| ==> services[i].id != id
    ensures ById(services, id).Some? ==>
              ById(services, id).value.id == id
              && exists i :: 0 <= i < |services| && services[i] == ById(services, id).value
                             && forall j :: 0 <= j < i ==> services[j].id != id
  {
    if services != [] && services[0].id != id {
      ByIdIsFirst(services[1..], id);
      assert forall i :: 1 <= i < |services| ==> services[i] == services[1..][i - 1];
      if ById(services, id).Some? {
        var k :| 0 <= k < |services[1..]| && services[1..][k] == ById(services, id).value
                 && forall j :: 0 <= j < k ==> services[1..][j].id != id;
        assert services[k + 1] == ById(services, id).value;
      }
    } else if services != [] {
      assert services[0] == ById(services, id).value;
    }
  }

  // ---------------------------------------------------------------- redirects stay on the gateway

  /** A path on this host: a second slash would make it a host of its own. */
  predicate OnGateway(target: string) {
    target != "" && target[0] == '/' && !("//" <= target)
  }

  lemma CleanPathIsOnGateway(p: string)
    ensures OnGateway(CleanPath(p))
  {
    if p != "" {
      var rooted := if p[0] == '/' then p else ['/'] + p;
      CleanIsClean(rooted);
      CleanNotDoubled(Clean(rooted));
      hide Clean, IsClean;
    }
  }

  lemma QueryStaysOnGateway(target: string, r: Request)
    requires OnGateway(target)
    ensures OnGateway(target + QueryOf(r))
  {
    assert r.query != "" ==> QueryOf(r)[0] == '?';
    var t := target + QueryOf(r);
    assert |t| > 1 ==> t[1] == if |target| > 1 then target[1] else QueryOf(r)[0];
  }

  lemma BareTargetIsOnGateway(username: string, s: Service, p: string)
    requires BareCovers(s.path, p)
    ensures OnGateway(BareTarget(username, s, p))
  {
    var t := BareTarget(username, s, p);
    assert t[0] == '/' && t[1] == 'p';
  }

  /** An escape is aimed at the user's own proxy paths. */
  lemma EscapeIsHome(s: Session, r: Request)
    ensures var d := ProxyEscape(s, r);
            d.Some? ==> d.value.Redirect? && "/proxy/" + s.user + "/" <= d.value.target && OnGateway(d.value.target)
  {
    var d := ProxyEscape(s, r);
    if d.Some? {
      var t := d.value.target;
      assert "/proxy/" + s.user + "/" <= t;
      assert t[0] == '/' && t[1] == ("/proxy/" + s.user + "/")[1] == 'p';
    }
  }

  /** Whatever is asked for, a redirect leads to a path on this gateway, never to another host. */
  lemma EveryRedirectStaysHere(reg: Registry, s: Session, r: Request)
    ensures Mux(reg, s, r).Redirect? ==> OnGateway(Mux(reg, s, r).target)
  {
    hide CleanPath, ApiRoute, LoginRoute, HandleProxy, Bare, ProxyEscape, RefererProxy, QueryOf;
    CleanPathIsOnGateway(r.path);
    QueryStaysOnGateway(CleanPath(r.path), r);
    assert "/api/"[1] == 'a' && "/proxy/"[1] == 'p';
    QueryStaysOnGateway("/api/", r);
    QueryStaysOnGateway("/proxy/", r);
    assert "/api" + "/" == "/api/" && "/proxy" + "/" == "/proxy/";
    EscapeIsHome(s, r);
    OnlyBareRedirects(reg, s, r);
  }

  lemma OnlyBareRedirects(reg: Registry, s: Session, r: Request)
    ensures !ApiRoute(reg, s, r).Redirect? && !LoginRoute(reg, s, r).Redirect? && !HandleProxy(reg, s, r).Redirect?
    ensures RefererProxy(reg, s, r).Some? ==> !RefererProxy(reg, s, r).value.Redirect?
    ensures Bare(reg, s, r).Redirect? ==> OnGateway(Bare(reg, s, r).target)
  {
    FallbacksDoNotRedirect(reg, s, r);
    BareProxyRedirect(reg, s, r);
    hide RefererProxy, RouteCookieProxy, DefaultProxy, RootAbsolute, BareProxy, BackendLogin, Found, FoundLegacy, OnGateway,
      BarePathIsPage, IsGatewayRoute;
  }

  lemma FallbacksDoNotRedirect(reg: Registry, s: Session, r: Request)
    ensures var all := [RefererProxy(reg, s, r), RouteCookieProxy(reg, s, r), DefaultProxy(reg, s, r),
                        RootAbsolute(reg, s, r), BackendLogin(reg, s, r)];
            forall o :: o in all && o.Some? ==> !o.value.Redirect?
  {
    hide MatchRoute, ById, BareService, RootAbsoluteReferer, FindBackend;
  }

  lemma BareProxyRedirect(reg: Registry, s: Session, r: Request)
    ensures var d := BareProxy(reg, s, r); d.Some? && d.value.Redirect? ==> OnGateway(d.value.target)
  {
    BareMeans(reg, s.user, r.path);
    hide BareService, BareCovers, BareTarget, OnGateway, QueryOf;
    var svc := BareService(reg, s.user, r.path);
    if svc.Some? {
      BareTargetIsOnGateway(s.user, svc.value, r.path);
      QueryStaysOnGateway(BareTarget(s.user, svc.value, r.path), r);
    }
  }

  // ---------------------------------------------------------------- who gets a bare path

  /**
    * Reading and writing agree: the redirect answering a GET of a bare service path, once
    * followed, is forwarded exactly as another method on the bare path is directly.
    */
  lemma ReadsAndWritesAgree(reg: Registry, s: Session, r: Request)
    requires LoggedIn(s) && s.user in reg && IsValidUsername(s.user) && UniquePaths(reg[s.user].services)
    requires forall t :: t in reg[s.user].services ==> t.path != "" && t.path[0] == '/'
    requires OnGateway(r.path) && !IsRead(r) && BareService(reg, s.user, r.path).Some?
    ensures var svc := BareService(reg, s.user, r.path).value;
            && BareCovers(svc.path, r.path)
            && var target := BareTarget(s.user, svc, r.path);
               && BareProxy(reg, s, r.(verb := "GET")) == Some(Redirect(target + QueryOf(r)))
               && Some(HandleProxy(reg, s, r.(verb := "GET", path := target))) == BareProxy(reg, s, r)
  {
    BareMeans(reg, s.user, r.path);
    var svc := BareService(reg, s.user, r.path).value;
    var target := BareTarget(s.user, svc, r.path);
    RedirectLandsOnService(reg, s.user, r.path);
    NamedUser(reg, target);
    hide BareService, BareCovers, BareTarget, Found, FoundLegacy, UsernameFromProxyPath, IsValidUsername;
  }

  /** No service of the user takes over bare paths outside its own. */
  predicate NoRootAbsolute(reg: Registry, user: string) {
    forall t :: t in ServicesOf(reg, user) ==> !t.rootAbsolute
  }

  lemma NothingRootAbsolute(reg: Registry, s: Session, r: Request)
    requires NoRootAbsolute(reg, s.user)
    ensures RootAbsolute(reg, s, r).None?
  {
    FoundMeans(reg, r.refPath);
    FoundLegacyMeans(reg, r.refPath, s.user);
    MatchRouteIsOwn(reg, r.route(r.path, r.referer), s.user);
    hide Found, FoundLegacy, UsernameFromProxyPath, Covers, LegacyCovers, AfterUser, MatchRoute, BareService;
  }

  /**
    * Page navigation is stable: for a user with a default service and no root-absolute one, a
    * page-like bare path is decided without regard to Referer and route cookies.
    */
  lemma PagesIgnoreHistory(reg: Registry, s: Session, r: Request,
                           refPath: string, referer: string, route: (string, string) -> string)
    requires LoggedIn(s) && NoRootAbsolute(reg, s.user) && BarePathIsPage(r.path) && DefaultProxy(reg, s, r).Some?
    ensures Bare(reg, s, r.(refPath := refPath, referer := referer, route := route)) == Bare(reg, s, r)
    ensures BareService(reg, s.user, r.path).None? ==> Bare(reg, s, r) == DefaultProxy(reg, s, r).value
  {
    var other := r.(refPath := refPath, referer := referer, route := route);
    NothingRootAbsolute(reg, s, r);
    NothingRootAbsolute(reg, s, other);
    assert DefaultProxy(reg, s, other) == DefaultProxy(reg, s, r) by {
      hide ById;
    }
    assert BareProxy(reg, s, other) == BareProxy(reg, s, r) by {
      hide BareService;
      BareMeans(reg, s.user, r.path);
    }
    hide RefererProxy, RouteCookieProxy, DefaultProxy, RootAbsolute, BarePathIsPage, BareService;
  }

  /**
    * Assets follow their page: a bare asset path outside every service path goes to the
    * service whose page asked for it, whatever cookies and default service there are.
    */
  lemma AssetsFollowTheirPage(reg: Registry, s: Session, r: Request)
    requires LoggedIn(s) && !BarePathIsPage(r.path) && BareService(reg, s.user, r.path).None?
    requires r.refPath != "" && MatchRoute(reg, r.refPath, s.user).Some?
    ensures Bare(reg, s, r) == AsIs(MatchRoute(reg, r.refPath, s.user).value, r)
  {
    MatchRouteIsOwn(reg, r.refPath, s.user);
    MatchedIsProxyPath(reg, r.refPath, s.user);
    hide Found, FoundLegacy, UsernameFromProxyPath, BareService, BarePathIsPage, RouteCookieProxy, DefaultProxy;
  }

  lemma MatchedIsProxyPath(reg: Registry, p: string, user: string)
    requires MatchRoute(reg, p, user).Some?
    ensures "/proxy/" <= p
  {
    hide BestCovering, BestLegacy, AfterUser, IsValidUsername;
  }

  // ---------------------------------------------------------------- what others can find out

  /**
    * Without a session, no path depends on what is registered, and none is answered as a
    * virtual host would be.
    */
  lemma PathsTellStrangersNothing(a: Registry, b: Registry, s: Session, r: Request)
    requires !LoggedIn(s)
    ensures Mux(a, s, r) == Mux(b, s, r) && !Mux(a, s, r).MainLogin? && Mux(a, s, r) != Refuse(401)
  {
    hide Found, FoundLegacy, BareProxy, RootAbsolute, MatchRoute, ById, FindBackend, BarePathIsPage, CleanPath,
      IsGatewayRoute, QueryOf, AsIs, Proxied;
  }

  /** The registries differ at most in other users. */
  predicate Agree(a: Registry, b: Registry, user: string) {
    (user in a <==> user in b) && (user in a ==> a[user] == b[user])
  }

  lemma AgreeOnOwn(a: Registry, b: Registry, user: string, p: string)
    requires Agree(a, b, user)
    ensures FoundLegacy(a, p, user) == FoundLegacy(b, p, user) && BareService(a, user, p) == BareService(b, user, p)
    ensures UsernameFromProxyPath(p) == "" || UsernameFromProxyPath(p) == user ==> Found(a, p) == Found(b, p)
  {
    hide UsernameFromProxyPath, AfterUser, BestCovering, BestLegacy, Best;
  }

  lemma NamedUser(reg: Registry, p: string)
    ensures Found(reg, p).Some? ==> Found(reg, p).value.username == UsernameFromProxyPath(p) != ""
  {
    FoundMeans(reg, p);
    hide Found, UsernameFromProxyPath, AfterUser, Covers;
  }

  /** Route cookies and Referers never tell users apart. */
  lemma MatchRouteAgrees(a: Registry, b: Registry, user: string, p: string)
    requires Agree(a, b, user)
    ensures MatchRoute(a, p, user) == MatchRoute(b, p, user)
  {
    AgreeOnOwn(a, b, user, p);
    hide Found, FoundLegacy, UsernameFromProxyPath, Agree;
  }

  /** The path names no other user, or at least no service of this user lives under that name. */
  predicate Clear(reg: Registry, user: string, p: string) {
    var named := UsernameFromProxyPath(p);
    named == "" || named == user || FoundLegacy(reg, p, user).None?
  }

  lemma HandleProxyAgrees(a: Registry, b: Registry, s: Session, r: Request)
    requires LoggedIn(s) && Agree(a, b, s.user) && Clear(a, s.user, r.path)
    ensures HandleProxy(a, s, r) == HandleProxy(b, s, r)
  {
    AgreeOnOwn(a, b, s.user, r.path);
    NamedUser(a, r.path);
    NamedUser(b, r.path);
    hide Found, FoundLegacy, UsernameFromProxyPath, Agree;
  }

  lemma RefererAgrees(a: Registry, b: Registry, user: string, r: Request)
    requires Agree(a, b, user) && Clear(a, user, r.refPath)
    ensures RootAbsoluteReferer(a, user, r) == RootAbsoluteReferer(b, user, r)
  {
    hide Found, FoundLegacy, UsernameFromProxyPath, Agree;
    AgreeOnOwn(a, b, user, r.refPath);
    NamedUser(a, r.refPath);
    NamedUser(b, r.refPath);
  }

  lemma RootAbsoluteAgrees(a: Registry, b: Registry, s: Session, r: Request)
    requires LoggedIn(s) && Agree(a, b, s.user) && Clear(a, s.user, r.refPath)
    ensures RootAbsolute(a, s, r) == RootAbsolute(b, s, r)
  {
    hide Found, FoundLegacy, Agree, Clear, MatchRoute, BareService, RootAbsoluteReferer, AsIs;
    AgreeOnOwn(a, b, s.user, r.path);
    RefererAgrees(a, b, s.user, r);
    MatchRouteAgrees(a, b, s.user, r.route(r.path, r.referer));
  }

  lemma RoutedAgrees(a: Registry, b: Registry, s: Session, r: Request)
    requires Agree(a, b, s.user)
    ensures RefererProxy(a, s, r) == RefererProxy(b, s, r) && RouteCookieProxy(a, s, r) == RouteCookieProxy(b, s, r)
    ensures BackendLogin(a, s, r) == BackendLogin(b, s, r)
  {
    hide Agree, MatchRoute, AsIs;
    MatchRouteAgrees(a, b, s.user, r.refPath);
    MatchRouteAgrees(a, b, s.user, r.route(r.path, r.referer));
    MatchRouteAgrees(a, b, s.user, r.route(r.path, r.refPath));
  }

  lemma DefaultAgrees(a: Registry, b: Registry, s: Session, r: Request)
    requires Agree(a, b, s.user)
    ensures DefaultProxy(a, s, r) == DefaultProxy(b, s, r)
  {
    hide ById, AsIs;
  }

  lemma BareProxyAgrees(a: Registry, b: Registry, s: Session, r: Request)
    requires Agree(a, b, s.user)
    ensures BareProxy(a, s, r) == BareProxy(b, s, r)
  {
    hide Agree, BareService, Found, FoundLegacy, BareTarget, Proxied;
    AgreeOnOwn(a, b, s.user, r.path);
    BareMeans(a, s.user, r.path);
  }

  lemma FallbacksAgree(a: Registry, b: Registry, s: Session, r: Request)
    requires LoggedIn(s) && Agree(a, b, s.user)
    ensures RefererProxy(a, s, r) == RefererProxy(b, s, r) && RouteCookieProxy(a, s, r) == RouteCookieProxy(b, s, r)
    ensures DefaultProxy(a, s, r) == DefaultProxy(b, s, r) && BareProxy(a, s, r) == BareProxy(b, s, r)
    ensures BackendLogin(a, s, r) == BackendLogin(b, s, r)
  {
    hide *;
    RoutedAgrees(a, b, s, r);
    DefaultAgrees(a, b, s, r);
    BareProxyAgrees(a, b, s, r);
  }

  lemma MuxAgrees(a: Registry, b: Registry, s: Session, r: Request)
    requires LoggedIn(s) && Agree(a, b, s.user) && Clear(a, s.user, r.path) && Clear(a, s.user, r.refPath)
    ensures Mux(a, s, r) == Mux(b, s, r)
  {
    hide RefererProxy, RouteCookieProxy, DefaultProxy, BareProxy, RootAbsolute, BackendLogin, HandleProxy, Agree, Clear,
      BarePathIsPage, CleanPath, IsGatewayRoute, ProxyEscape;
    FallbacksAgree(a, b, s, r);
    RootAbsoluteAgrees(a, b, s, r);
    HandleProxyAgrees(a, b, s, r);
  }

  // ---------------------------------------------------------------- and exactly then

  function Catchall(): Service {
    Service("all", "", "", "127.0.0.1", 1, "/", "", false, false, [], "", 0, 0, None)
  }

  /** The registry with another user present, or absent, so that the path is theirs, or is not. */
  function Toggled(reg: Registry, other: string, present: bool): Registry {
    if present then reg[other := Config([Catchall()], "")] else reg - {other}
  }

  lemma ToggledFound(reg: Registry, p: string, present: bool)
    requires UsernameFromProxyPath(p) != ""
    ensures Found(Toggled(reg, UsernameFromProxyPath(p), present), p).Some? <==> present
  {
    var other := UsernameFromProxyPath(p);
    var toggled := Toggled(reg, other, present);
    FoundMeans(toggled, p);
    hide Found, UsernameFromProxyPath, AfterUser;
    if present {
      assert ServicesOf(toggled, other) == [Catchall()];
      assert Catchall() in ServicesOf(toggled, other) && Covers(Catchall().path, AfterUser(p));
    }
  }

  /** Proxying a request never answers "not found" by itself. */
  lemma ProxiedIsNot404(m: Match, r: Request)
    ensures Proxied(m, r) != Refuse(404)
  {
  }

  /**
    * For direct proxy paths the condition is exact: the answer is the same whatever other
    * users have configured if and only if the path is clear.
    */
  lemma HiddenIffClear(reg: Registry, s: Session, r: Request)
    requires LoggedIn(s)
    ensures (forall b :: Agree(reg, b, s.user) ==> HandleProxy(b, s, r) == HandleProxy(reg, s, r)) <==> Clear(reg, s.user, r.path)
  {
    hide HandleProxy, Clear, Agree;
    if Clear(reg, s.user, r.path) {
      forall b | Agree(reg, b, s.user)
        ensures HandleProxy(b, s, r) == HandleProxy(reg, s, r)
      {
        HandleProxyAgrees(reg, b, s, r);
      }
    } else {
      var b := Differing(reg, s, r);
    }
  }

  /** When the path is not clear, some other user's configuration changes the answer. */
  lemma Differing(reg: Registry, s: Session, r: Request) returns (b: Registry)
    requires LoggedIn(s) && !Clear(reg, s.user, r.path)
    ensures Agree(reg, b, s.user) && HandleProxy(b, s, r) != HandleProxy(reg, s, r)
  {
    var other := UsernameFromProxyPath(r.path);
    b := Toggled(reg, other, Found(reg, r.path).None?);
    ToggledFound(reg, r.path, Found(reg, r.path).None?);
    AgreeOnOwn(reg, b, s.user, r.path);
    ProxiedIsNot404(FoundLegacy(reg, r.path, s.user).value, r);
    hide Found, FoundLegacy, UsernameFromProxyPath, Proxied;
  }
}
