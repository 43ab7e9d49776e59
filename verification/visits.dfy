/**
  * From visits to the next request: the cookies that proxied responses leave behind, and where
  * they send a request that says nothing of the page it comes from.
  */
module Visits {
  import opened Basics
  import opened ServicePaths
  import opened UserConfig
  import opened Routing
  import opened Redirects
  import opened Decisions
  import Cookies = RouteCookies

  /** The prefix a visit of the service stamps into its cookies. */
  function PrefixOf(user: string, svc: Service): string {
    "/proxy/" + user + svc.path
  }

  /** The prefix of a service's own mount leads back to the service. */
  lemma PrefixLeadsBack(reg: Registry, user: string, svc: Service)
    requires user in reg && IsValidUsername(user) && svc in reg[user].services && Routable(reg[user].services)
    ensures MatchRoute(reg, PrefixOf(user, svc), user) == Some(Match(user, svc, "/", false))
  {
    assert svc.path != "" && svc.path[0] == '/';
    ProxyPathParts(user, svc.path);
    assert Covers(svc.path, svc.path) && Routing.Canonical(user, svc, svc.path) == Match(user, svc, "/", false);
    hide IsValidUsername, Found, FoundLegacy, UsernameFromProxyPath, Covers, Routing.Canonical;
    MountLeadsBack(reg, user, svc, svc.path);
  }

  /** A request without a Referer, with the cookies these visits leave, walked in this order. */
  ghost predicate FollowsVisits(r: Request, jar: Cookies.Jar, visits: seq<Cookies.Visit>, name: string -> string, routes: seq<string>) {
    var after := Cookies.AfterVisits(jar, visits, name);
    && r.refPath == "" && r.referer == "" && Cookies.Lists(after, routes)
    && r.route(r.path, r.referer) == Cookies.Chosen(after, routes, r.path, "")
  }

  lemma RouteIsLastVisit(r: Request, jar: Cookies.Jar, visits: seq<Cookies.Visit>, name: string -> string, routes: seq<string>,
                         prefix: string)
    requires FollowsVisits(r, jar, visits, name, routes) && r.path != "/" && Cookies.BestRoute(routes, r.path) == ""
    requires Cookies.LastActive(visits) == Some(prefix) && prefix != ""
    ensures r.route(r.path, r.referer) == prefix
  {
    Cookies.BareRequestFollowsLastVisit(jar, visits, name, routes, r.path);
    hide Cookies.AfterVisits, Cookies.LastActive, Cookies.BestRoute, Cookies.Lists, Cookies.Chosen;
  }

  /**
    * The next request goes where the last visit was: after any visits, from any cookies, a
    * request without a Referer and under none of the routes is forwarded by the route cookie to
    * the service visited last, images and favicons aside; "/" included.
    */
  lemma NextRequestFollowsLastVisit(reg: Registry, s: Session, r: Request, svc: Service,
                                    jar: Cookies.Jar, visits: seq<Cookies.Visit>, name: string -> string, routes: seq<string>)
    requires LoggedIn(s) && IsValidUsername(s.user) && s.user in reg
    requires svc in reg[s.user].services && Routable(reg[s.user].services)
    requires FollowsVisits(r, jar, visits, name, routes) && r.path != "/" && Cookies.BestRoute(routes, r.path) == ""
    requires Cookies.LastActive(visits) == Some(PrefixOf(s.user, svc))
    ensures RouteCookieProxy(reg, s, r) == Some(AsIs(Match(s.user, svc, "/", false), r))
  {
    RouteIsLastVisit(r, jar, visits, name, routes, PrefixOf(s.user, svc));
    PrefixLeadsBack(reg, s.user, svc);
    hide FollowsVisits, MatchRoute, AsIs, Routable, IsValidUsername, Cookies.LastActive, Cookies.BestRoute;
  }

  /**
    * So an asset no service path claims, asked for without a Referer, comes from the service
    * visited last, whichever branch of the chain serves it and whatever the default service is.
    */
  lemma StrayAssetsFollowLastVisit(reg: Registry, s: Session, r: Request, svc: Service,
                                   jar: Cookies.Jar, visits: seq<Cookies.Visit>, name: string -> string, routes: seq<string>)
    requires LoggedIn(s) && IsValidUsername(s.user) && s.user in reg
    requires svc in reg[s.user].services && Routable(reg[s.user].services)
    requires FollowsVisits(r, jar, visits, name, routes) && r.path != "/" && Cookies.BestRoute(routes, r.path) == ""
    requires Cookies.LastActive(visits) == Some(PrefixOf(s.user, svc))
    requires !BarePathIsPage(r.path) && BareService(reg, s.user, r.path).None?
    ensures Bare(reg, s, r) == AsIs(Match(s.user, svc, "/", false), r)
  {
    NextRequestFollowsLastVisit(reg, s, r, svc, jar, visits, name, routes);
    RouteIsLastVisit(r, jar, visits, name, routes, PrefixOf(s.user, svc));
    PrefixLeadsBack(reg, s.user, svc);
    hide MatchRoute, AsIs, Routable, IsValidUsername, BareService, BarePathIsPage, Cookies.LastActive, Cookies.BestRoute,
      Cookies.AfterVisits, Cookies.Lists, Cookies.Chosen, PrefixOf;
  }
}
