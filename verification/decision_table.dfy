/**
  * The chain of handlers as a table: for each route of the mux, the candidates in order of
  * preference, and what is answered when there is none.  The handlers are set against it.
  */
module DecisionTable {
  import opened Basics
  import opened Text
  import opened ServicePaths
  import opened UserConfig
  import opened UrlPaths
  import opened Routing
  import opened Decisions
  import Hosts = HostIndex

  // ---------------------------------------------------------------- candidates

  /** The user's own service that a /proxy/ path leads to; paths that name somebody else lead nowhere. */
  function Own(reg: Registry, user: string, p: string): Option<Match> {
    if UsernameFromProxyPath(p) != "" && UsernameFromProxyPath(p) != user then None
    else if Found(reg, p).Some? then Found(reg, p)
    else FoundLegacy(reg, p, user)
  }

  function NoneIfEmpty(p: string, m: Option<Match>): Option<Match> {
    if p == "" then None else m
  }

  /** The service of the page that asks, by its Referer. */
  function ByPage(reg: Registry, s: Session, r: Request): Option<Match> {
    NoneIfEmpty(r.refPath, Own(reg, s.user, r.refPath))
  }

  /** The service of a route cookie. */
  function ByCookie(reg: Registry, s: Session, route: string): Option<Match> {
    NoneIfEmpty(route, Own(reg, s.user, route))
  }

  /** The user's default service. */
  function ByDefault(reg: Registry, s: Session, r: Request): Option<Match> {
    if s.user !in reg || reg[s.user].defaultService == "" then None
    else
      var svc := ById(reg[s.user].services, reg[s.user].defaultService);
      if svc.Some? then Some(Match(s.user, svc.value, r.path, false)) else None
  }

  predicate IsRootAbsolute(m: Option<Match>) {
    m.Some? && m.value.service.rootAbsolute
  }

  /**
    * A service that claims the root for its pages.  A page below /proxy/ settles the matter,
    * whether its service makes the claim or not; otherwise the cookie is asked.
    */
  function ByRootClaim(reg: Registry, s: Session, r: Request): Option<Match> {
    var asked := if "/proxy/" <= r.refPath then PageOf(reg, s.user, r.refPath)
                 else ByCookie(reg, s, r.route(r.path, r.referer));
    if IsRootAbsolute(asked) then asked else None
  }

  /** The page's service if it is the user's own. */
  function PageOf(reg: Registry, user: string, p: string): Option<Match> {
    var m := if Found(reg, p).Some? then Found(reg, p) else FoundLegacy(reg, p, user);
    if m.Some? && m.value.username == user then m else None
  }

  function First(candidates: seq<Option<Match>>): Option<Match> {
    if candidates == [] then None
    else if candidates[0].Some? then candidates[0]
    else First(candidates[1..])
  }

  // ---------------------------------------------------------------- answers

  /** The request goes to the service under this path, unless it asks for a WebSocket the service has not enabled. */
  function Sent(m: Match, path: string, r: Request): Decision {
    if !r.upgrade || m.service.webSocket then Forward(m.username, m.service, path) else Refuse(403)
  }

  function SentAsIs(m: Option<Match>, r: Request, otherwise: Decision): Decision {
    if m.Some? then Sent(m.value, r.path, r) else otherwise
  }

  function SentBelow(m: Option<Match>, r: Request, otherwise: Decision): Decision {
    if m.Some? then Sent(m.value, m.value.remaining, r) else otherwise
  }

  function WithQuery(path: string, r: Request): string {
    if r.query != "" then path + "?" + r.query else path
  }

  predicate Reads(r: Request) {
    r.verb == "GET" || r.verb == "HEAD"
  }

  /** What a session's user is answered, route by route. */
  function UserTable(reg: Registry, s: Session, r: Request): Decision {
    var cookie, page := ByCookie(reg, s, r.route(r.path, r.referer)), ByPage(reg, s, r);
    var default := ByDefault(reg, s, r);
    match BranchOf(r.path)
    case Elsewhere => Redirect(WithQuery(if CleanPath(r.path) != r.path then CleanPath(r.path) else r.path + "/", r))
    case ApiPath =>
      if IsGatewayRoute(r.path, r.verb) then Gateway(Api)
      else SentAsIs(First([page, cookie, default]), r, Refuse(404))
    case OwnPage => PageAt(r.path)
    case LoginPath =>
      if r.verb != "POST" then SentAsIs(First([cookie, page]), r, Gateway(LoginPage))
      else if !r.sameOrigin then Refuse(403)
      else
        var form := First([page, ByCookie(reg, s, r.route(r.path, r.refPath))]);
        SentAsIs(if r.formPost && !r.refererIsProxied then None else form, r, Gateway(LoginStep))
    case ProxyPath =>
      var named := UsernameFromProxyPath(r.path);
      SentBelow(if Found(reg, r.path).None? then FoundLegacy(reg, r.path, s.user)
                else if named == s.user then Found(reg, r.path) else None, r, Refuse(404))
    case BarePath =>
      var svc := BareService(reg, s.user, r.path);
      if svc.Some? then
        BareMeans(reg, s.user, r.path);
        if Reads(r) then Redirect(WithQuery("/proxy/" + s.user + r.path, r))
        else Sent(Match(s.user, svc.value, "", false), OrSlash(r.path[|svc.value.path|..]), r)
      else
        var rest := if BarePathIsPage(r.path) then [default, page, cookie] else [page, cookie, default];
        SentAsIs(First([ByRootClaim(reg, s, r)] + rest), r, Refuse(404))
    case RootPath =>
      var route := r.route("", r.refPath);
      if r.query != "" && "/proxy/" + s.user + "/" <= route then
        Redirect(WithQuery(if route[|route| - 1] == '/' then route else route + "/", r))
      else SentAsIs(page, r, Gateway(Dashboard))
  }

  function PageAt(p: string): Decision {
    if p == "/favicon.ico" then Gateway(Favicon) else if p == "/logout" then Gateway(Logout) else Gateway(SecondFactor)
  }

  /** What everybody else is answered; an expired session still counts as one for pages that need no login. */
  function StrangerTable(s: Session, r: Request): Decision {
    var hinted := r.route(r.path, r.referer) != "";
    match BranchOf(r.path)
    case Elsewhere => Redirect(WithQuery(if CleanPath(r.path) != r.path then CleanPath(r.path) else r.path + "/", r))
    case ApiPath =>
      if IsGatewayRoute(r.path, r.verb) then Gateway(Api) else if hinted then LoginFirst else Refuse(404)
    case OwnPage => PageAt(r.path)
    case LoginPath =>
      if r.verb != "POST" then Gateway(LoginPage) else if r.sameOrigin then Gateway(LoginStep) else Refuse(403)
    case ProxyPath => LoginFirst
    case BarePath =>
      if hinted || (!s.valid && Reads(r) && BarePathIsPage(r.path)) then LoginFirst else Refuse(404)
    case RootPath => Gateway(Dashboard)
  }

  // ---------------------------------------------------------------- the handlers agree

  lemma MatchRouteIsOwnRoute(reg: Registry, p: string, user: string)
    ensures MatchRoute(reg, p, user) == Own(reg, user, p)
  {
    hide Found, FoundLegacy, UsernameFromProxyPath;
  }

  lemma HandlersAre(reg: Registry, s: Session, r: Request)
    requires s.valid && s.user != ""
    ensures var cookie, page := ByCookie(reg, s, r.route(r.path, r.referer)), ByPage(reg, s, r);
            && RefererProxy(reg, s, r) == (if page.Some? then Some(Sent(page.value, r.path, r)) else None)
            && RouteCookieProxy(reg, s, r) == (if cookie.Some? then Some(Sent(cookie.value, r.path, r)) else None)
    ensures var default := ByDefault(reg, s, r);
            DefaultProxy(reg, s, r) == if default.Some? then Some(Sent(default.value, r.path, r)) else None
  {
    MatchRouteIsOwnRoute(reg, r.refPath, s.user);
    MatchRouteIsOwnRoute(reg, r.route(r.path, r.referer), s.user);
    hide MatchRoute, Own, ById;
  }

  lemma FirstOf(a: Option<Match>, rest: seq<Option<Match>>)
    ensures First([a] + rest) == if a.Some? then a else First(rest)
    ensures First([]) == None
  {
    assert ([a] + rest)[1..] == rest;
  }

  lemma FirstOfThree(a: Option<Match>, b: Option<Match>, c: Option<Match>)
    ensures First([a, b, c]) == if a.Some? then a else if b.Some? then b else c
    ensures First([a, b]) == if a.Some? then a else b
  {
    assert [a, b, c] == [a] + [b, c] && [b, c] == [b] + [c] && [a, b] == [a] + [b] && [c] == [c] + [] && [b] == [b] + [];
    FirstOf(a, [b, c]);
    FirstOf(b, [c]);
    FirstOf(c, []);
    FirstOf(a, [b]);
    FirstOf(b, []);
  }

  lemma QueryIs(path: string, r: Request)
    ensures path + QueryOf(r) == WithQuery(path, r)
  {
    assert path + "" == path && path + ("?" + r.query) == path + "?" + r.query;
  }

  lemma ApiAgrees(reg: Registry, s: Session, r: Request)
    requires s.valid && s.user != "" && BranchOf(r.path).ApiPath?
    ensures ApiRoute(reg, s, r) == UserTable(reg, s, r)
  {
    HandlersAre(reg, s, r);
    FirstOfThree(ByPage(reg, s, r), ByCookie(reg, s, r.route(r.path, r.referer)), ByDefault(reg, s, r));
    hide BranchOf, RefererProxy, RouteCookieProxy, DefaultProxy, ByPage, ByCookie, ByDefault, First, IsGatewayRoute;
  }

  /** Whose form was posted to the login path. */
  lemma FormIs(reg: Registry, s: Session, r: Request)
    requires s.valid && s.user != "" && r.path == "/login"
    ensures var form := First([ByPage(reg, s, r), ByCookie(reg, s, r.route(r.path, r.refPath))]);
            BackendLogin(reg, s, r) ==
            if form.None? || (r.formPost && !r.refererIsProxied) then None else Some(Sent(form.value, r.path, r))
  {
    MatchRouteIsOwnRoute(reg, r.refPath, s.user);
    MatchRouteIsOwnRoute(reg, r.route(r.path, r.refPath), s.user);
    FirstOfThree(ByPage(reg, s, r), ByCookie(reg, s, r.route(r.path, r.refPath)), None);
    hide First, MatchRoute, Own;
  }

  lemma LoginAgrees(reg: Registry, s: Session, r: Request)
    requires s.valid && s.user != "" && BranchOf(r.path).LoginPath?
    ensures LoginRoute(reg, s, r) == UserTable(reg, s, r)
  {
    HandlersAre(reg, s, r);
    LoginPathIs(r.path);
    FormIs(reg, s, r);
    FirstOfThree(ByCookie(reg, s, r.route(r.path, r.referer)), ByPage(reg, s, r), None);
    hide BranchOf, RefererProxy, RouteCookieProxy, DefaultProxy, BackendLogin, ByPage, ByCookie, ByDefault, First;
  }

  lemma LoginPathIs(p: string)
    requires BranchOf(p).LoginPath?
    ensures p == "/login"
  {
    hide CleanPath;
  }

  lemma ProxyAgrees(reg: Registry, s: Session, r: Request)
    requires s.valid && s.user != "" && BranchOf(r.path).ProxyPath?
    ensures HandleProxy(reg, s, r) == UserTable(reg, s, r)
  {
    hide BranchOf, Found, FoundLegacy, UsernameFromProxyPath, ByPage, ByCookie, ByDefault;
  }

  lemma RootClaimIs(reg: Registry, s: Session, r: Request)
    requires s.valid && s.user != "" && BareService(reg, s.user, r.path).None?
    ensures var m := ByRootClaim(reg, s, r);
            RootAbsolute(reg, s, r) == if m.Some? then Some(Sent(m.value, r.path, r)) else None
  {
    MatchRouteIsOwnRoute(reg, r.route(r.path, r.referer), s.user);
    hide Found, FoundLegacy, UsernameFromProxyPath, MatchRoute, Own, BareService;
  }

  lemma UnclaimedIsNone(reg: Registry, s: Session, r: Request)
    requires BareService(reg, s.user, r.path).None?
    ensures BareProxy(reg, s, r).None?
  {
    hide BareService;
  }

  lemma UnclaimedAgrees(reg: Registry, s: Session, r: Request)
    requires s.valid && s.user != "" && BranchOf(r.path).BarePath? && BareService(reg, s.user, r.path).None?
    ensures Bare(reg, s, r) == UserTable(reg, s, r)
  {
    hide BranchOf, RefererProxy, RouteCookieProxy, DefaultProxy, RootAbsolute, ByPage, ByCookie, ByDefault, ByRootClaim,
      First, BareService, BarePathIsPage, Sent, BareProxy, IsRead, Reads, BareCovers, OrSlash, WithQuery;
    HandlersAre(reg, s, r);
    RootClaimIs(reg, s, r);
    UnclaimedIsNone(reg, s, r);
    var claim, page, default := ByRootClaim(reg, s, r), ByPage(reg, s, r), ByDefault(reg, s, r);
    var cookie := ByCookie(reg, s, r.route(r.path, r.referer));
    FirstOf(claim, [default, page, cookie]);
    FirstOf(claim, [page, cookie, default]);
    FirstOfThree(default, page, cookie);
    FirstOfThree(page, cookie, default);
  }

  /** What a bare path of a service is answered. */
  lemma ClaimedIs(reg: Registry, s: Session, r: Request, svc: Service)
    requires BareService(reg, s.user, r.path) == Some(svc) && BareCovers(svc.path, r.path)
    ensures BareProxy(reg, s, r) ==
              Some(if Reads(r) then Redirect(WithQuery("/proxy/" + s.user + r.path, r))
                   else Sent(Match(s.user, svc, "", false), OrSlash(r.path[|svc.path|..]), r))
  {
    BareTargetIs(s.user, svc, r.path);
    QueryIs("/proxy/" + s.user + r.path, r);
    hide BareService, BareCovers, BareTarget, QueryOf, WithQuery, OrSlash;
  }

  lemma ReadsAre(r: Request)
    ensures IsRead(r) <==> Reads(r)
  {
  }

  lemma ClaimedAgrees(reg: Registry, s: Session, r: Request)
    requires s.valid && s.user != "" && BranchOf(r.path).BarePath? && BareService(reg, s.user, r.path).Some?
    ensures Bare(reg, s, r) == UserTable(reg, s, r)
  {
    hide BareProxy, RefererProxy, RouteCookieProxy, DefaultProxy, RootAbsolute, BarePathIsPage, BareService, BareCovers,
      WithQuery, Sent, Reads, IsRead, ByPage, ByCookie, ByDefault, ByRootClaim, First, BranchOf, OrSlash;
    BareMeans(reg, s.user, r.path);
    ClaimedIs(reg, s, r, BareService(reg, s.user, r.path).value);
  }

  lemma EscapeAgrees(s: Session, r: Request)
    requires s.valid && s.user != ""
    ensures var route := r.route("", r.refPath);
            ProxyEscape(s, r) ==
            if r.query != "" && "/proxy/" + s.user + "/" <= route then
              Some(Redirect(WithQuery(if route[|route| - 1] == '/' then route else route + "/", r)))
            else None
  {
    var route := r.route("", r.refPath);
    assert route + "" == route;
  }

  lemma RootAgrees(reg: Registry, s: Session, r: Request)
    requires s.valid && s.user != "" && BranchOf(r.path).RootPath?
    ensures Settle(OrElse(ProxyEscape(s, r), RefererProxy(reg, s, r)), Gateway(Dashboard)) == UserTable(reg, s, r)
  {
    hide BranchOf, RefererProxy, ByPage, ByCookie, ByDefault, First, Sent, ProxyEscape, WithQuery;
    HandlersAre(reg, s, r);
    EscapeAgrees(s, r);
  }

  lemma ElsewhereAgrees(reg: Registry, s: Session, r: Request)
    requires BranchOf(r.path).Elsewhere? || BranchOf(r.path).OwnPage?
    ensures Mux(reg, s, r) ==
              if BranchOf(r.path).OwnPage? then PageAt(r.path)
              else Redirect(WithQuery(if CleanPath(r.path) != r.path then CleanPath(r.path) else r.path + "/", r))
  {
    QueryIs(CleanPath(r.path), r);
    QueryIs(r.path + "/", r);
    hide CleanPath, ApiRoute, LoginRoute, HandleProxy, Bare, ProxyEscape, RefererProxy, QueryOf, WithQuery;
  }

  /** The handlers decide as the table says: for a session's user ... */
  lemma UsersGetTheTable(reg: Registry, s: Session, r: Request)
    requires s.valid && s.user != ""
    ensures Mux(reg, s, r) == UserTable(reg, s, r)
  {
    hide Mux, UserTable, BareService, BranchOf;
    MuxByBranch(reg, s, r);
    match BranchOf(r.path) {
      case Elsewhere =>
        ElsewhereAgrees(reg, s, r);
        ElsewhereIsTable(reg, s, r);
      case ApiPath => ApiAgrees(reg, s, r);
      case OwnPage =>
        ElsewhereAgrees(reg, s, r);
        ElsewhereIsTable(reg, s, r);
      case LoginPath => LoginAgrees(reg, s, r);
      case ProxyPath => ProxyAgrees(reg, s, r);
      case BarePath =>
        if BareService(reg, s.user, r.path).Some? {
          ClaimedAgrees(reg, s, r);
        } else {
          UnclaimedAgrees(reg, s, r);
        }
      case RootPath => RootAgrees(reg, s, r);
    }
  }

  lemma ElsewhereIsTable(reg: Registry, s: Session, r: Request)
    requires BranchOf(r.path).Elsewhere? || BranchOf(r.path).OwnPage?
    ensures UserTable(reg, s, r) ==
              if BranchOf(r.path).OwnPage? then PageAt(r.path)
              else Redirect(WithQuery(if CleanPath(r.path) != r.path then CleanPath(r.path) else r.path + "/", r))
  {
    hide CleanPath, BranchOf, ByPage, ByCookie, ByDefault;
  }

  /** ... and for everybody else. */
  lemma StrangersGetTheTable(reg: Registry, s: Session, r: Request)
    requires !(s.valid && s.user != "")
    ensures Mux(reg, s, r) == StrangerTable(s, r)
  {
    MuxByBranch(reg, s, r);
    if BranchOf(r.path).Elsewhere? || BranchOf(r.path).OwnPage? {
      ElsewhereAgrees(reg, s, r);
    }
    hide Mux, BranchOf, CleanPath, Found, FoundLegacy, BareService, MatchRoute, BarePathIsPage, IsGatewayRoute, ById;
  }

  /** On a virtual host: its owner gets the service at the path asked for, others get nothing of it. */
  lemma HostsGetTheTable(reg: Registry, target: Hosts.Target, s: Session, r: Request)
    ensures Decide(reg, Some(target), s, r) ==
              if s.valid && s.user != "" then
                if s.user == target.username then Sent(Match(s.user, target.service, "", false), r.path, r) else Refuse(404)
              else if r.wantsHtml then MainLogin
              else Refuse(401)
  {
  }

  // ---------------------------------------------------------------- what the table is made of

  /** A dot with something on both sides, and no dot behind it. */
  ghost predicate HasDottedEnd(segment: string) {
    exists i :: 0 < i < |segment| - 1 && segment[i] == '.' && '.' !in segment[i + 1..]
  }

  lemma {:induction false} ExtensionIff(segment: string)
    ensures HasExtension(segment) <==> HasDottedEnd(segment)
  {
    if i :| 0 < i < |segment| - 1 && segment[i] == '.' && '.' !in segment[i + 1..] {
      LastIndexIs(segment, '.', i);
    }
    var k := LastIndex(segment, '.');
    if 0 < k < |segment| - 1 {
      LastIsLast(segment, '.');
    }
  }

  lemma {:induction false} LastIsLast(s: string, c: char)
    ensures LastIndex(s, c) >= 0 ==> c !in s[LastIndex(s, c) + 1..]
  {
    if s != "" && s[|s| - 1] != c {
      LastIsLast(s[..|s| - 1], c);
      if LastIndex(s, c) >= 0 {
        assert s[LastIndex(s, c) + 1..] == s[..|s| - 1][LastIndex(s, c) + 1..] + [s[|s| - 1]];
      }
    }
  }

  /**
    * A path is a page, in whatever letter case, if no segment of it ends in an extension and it
    * lies under none of the places assets and calls are known to be.
    */
  lemma PagesAre(p: string)
    requires '?' !in p
    ensures var lower := ToLower(p);
            BarePathIsPage(p) <==>
            && (forall segment :: segment in Split(lower, '/') ==> !HasDottedEnd(segment))
            && !("/api/" <= lower) && !("/plugins/" <= lower) && !("/_nuxt/" <= lower) && !("/_next/" <= lower)
            && !("/assets/" <= lower) && !("/static/" <= lower) && !("/vendors/" <= lower) && !("/files/" <= lower)
            && !("/favicon." <= lower) && !("/manifest.webmanifest" <= lower)
  {
    FindNone(p, '?');
    assert p[..|p|] == p;
    forall segment
      ensures HasExtension(segment) <==> HasDottedEnd(segment)
    {
      ExtensionIff(segment);
    }
    RootsAre(ToLower(p));
    hide HasExtension, HasDottedEnd, Split, ToLower, Find;
  }

  lemma NoneOfTen(roots: seq<string>, s: string)
    requires |roots| == 10
    ensures (forall root :: root in roots ==> !(root <= s)) <==>
            && !(roots[0] <= s) && !(roots[1] <= s) && !(roots[2] <= s) && !(roots[3] <= s) && !(roots[4] <= s)
            && !(roots[5] <= s) && !(roots[6] <= s) && !(roots[7] <= s) && !(roots[8] <= s) && !(roots[9] <= s)
  {
    forall i | 0 <= i < 10
      ensures roots[i] in roots
    {
    }
    forall root | root in roots
      ensures exists i :: 0 <= i < 10 && roots[i] == root
    {
    }
  }

  lemma RootsAre(lower: string)
    ensures (forall root :: root in ASSET_ROOTS ==> !(root <= lower)) <==>
            && !("/api/" <= lower) && !("/plugins/" <= lower) && !("/_nuxt/" <= lower) && !("/_next/" <= lower)
            && !("/assets/" <= lower) && !("/static/" <= lower) && !("/vendors/" <= lower) && !("/files/" <= lower)
            && !("/favicon." <= lower) && !("/manifest.webmanifest" <= lower)
  {
    NoneOfTen(ASSET_ROOTS, lower);
  }

  /** What follows a question mark does not matter to that. */
  lemma QueryIsNoPage(p: string, query: string)
    requires '?' !in p
    ensures BarePathIsPage(p + "?" + query) == BarePathIsPage(p)
  {
    FindAt(p, query, '?');
    FindNone(p, '?');
    assert p + ['?'] + query == p + "?" + query && (p + "?" + query)[..|p|] == p == p[..|p|];
    hide HasExtension, Split, ToLower, Find;
  }

  /** The management calls: listing and adding, and replacing or deleting one service or the layout. */
  lemma GatewayRoutesAre(p: string, verb: string)
    ensures IsGatewayRoute(p, verb) <==>
            || (p == "/api/services" && (verb == "GET" || verb == "POST"))
            || ((verb == "PUT" || verb == "DELETE")
                && exists id :: p == "/api/services/" + id && id != "" && '/' !in id)
  {
    var root := "/api/services/";
    if root <= p {
      assert p == root + p[14..];
      assert p != "/api/services" by {
        assert |p| >= 14 && |"/api/services"| == 13;
      }
    }
    if id :| p == root + id && id != "" && '/' !in id {
      assert p[14..] == id && root <= p && |p| > 14;
    }
  }

  /** Every service is reached below its mount, at what follows it, as long as no nested service claims the path. */
  lemma OwnMountIsServed(reg: Registry, s: Session, r: Request, svc: Service, p: string)
    requires s.valid && s.user != "" && IsValidUsername(s.user) && s.user in reg && svc in reg[s.user].services
    requires UniquePaths(reg[s.user].services)
    requires forall t :: t in reg[s.user].services ==> t.path != "" && t.path[0] == '/'
    requires p != "" && p[0] == '/' && Covers(svc.path, p) && r.path == "/proxy/" + s.user + p
    requires forall t :: t in reg[s.user].services && Covers(t.path, p) ==> |t.path| <= |svc.path|
    ensures HandleProxy(reg, s, r) == Sent(Match(s.user, svc, "", false), Remaining(svc.path, p), r)
  {
    MountLeadsBack(reg, s.user, svc, p);
    ProxyPathParts(s.user, p);
    hide Found, FoundLegacy, UsernameFromProxyPath, Covers, IsValidUsername, AfterUser, Remaining;
  }
}
