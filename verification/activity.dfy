/**
  * Which requests keep a session alive: every branch of the gateway validates the session, but
  * not every branch runs the refresh check of `Sessions`.
  */
module Activity {
  import opened Basics
  import opened UrlPaths
  import opened Routing
  import opened Decisions
  import Hosts = HostIndex
  import S = Sessions

  /** Whether answering the request runs the refresh check. */
  predicate Checks(reg: Registry, target: Option<Hosts.Target>, s: Session, r: Request) {
    && LoggedIn(s)
    && if target.Some? then s.user == target.value.username
       else
         match BranchOf(r.path)
         case Elsewhere => false
         case ApiPath => !IsGatewayRoute(r.path, r.verb) || r.verb == "GET" || r.sameOrigin
         case OwnPage => false
         case LoginPath => r.verb != "POST"
         case ProxyPath => true
         case BarePath => BareProxy(reg, s, r).None?
         case RootPath => ProxyEscape(s, r).None?
  }

  /** A form posted to the login path, or a write to a bare path of one of the user's services. */
  predicate IsSilentWrite(reg: Registry, user: string, r: Request) {
    || (BranchOf(r.path).LoginPath? && r.verb == "POST")
    || (BranchOf(r.path).BarePath? && !IsRead(r) && BareService(reg, user, r.path).Some?)
  }

  /**
    * Exactly two kinds of forwarded requests skip the refresh check: forms passed on to a
    * backend's login, and writes to bare service paths.
    */
  lemma ForwardsAreCheckedIff(reg: Registry, target: Option<Hosts.Target>, s: Session, r: Request)
    ensures Decide(reg, target, s, r).Forward? ==>
              (Checks(reg, target, s, r) <==> target.Some? || !IsSilentWrite(reg, s.user, r))
  {
    hide Mux, BranchOf, CleanPath, ApiRoute, LoginRoute, HandleProxy, Bare, ProxyEscape, RefererProxy, QueryOf, BareProxy,
      IsGatewayRoute, BareService, OnGateway;
    MuxByBranch(reg, s, r);
    MuxIsOwn(reg, s, r);
    BareProxyKinds(reg, s, r);
    EscapeIsHome(s, r);
    GatewayRoutesDoNotForward(reg, s, r);
  }

  lemma BareProxyKinds(reg: Registry, s: Session, r: Request)
    ensures BareProxy(reg, s, r).Some? <==> BareService(reg, s.user, r.path).Some?
    ensures LoggedIn(s) && IsRead(r) && BareProxy(reg, s, r).Some? ==> !Bare(reg, s, r).Forward?
  {
    BareMeans(reg, s.user, r.path);
    hide BareService, RootAbsolute, RefererProxy, RouteCookieProxy, DefaultProxy, BarePathIsPage, BareCovers,
      BareTarget;
  }

  lemma GatewayRoutesDoNotForward(reg: Registry, s: Session, r: Request)
    ensures IsGatewayRoute(r.path, r.verb) ==> !ApiRoute(reg, s, r).Forward?
  {
    hide IsGatewayRoute, Fallbacks;
  }

  /** The gateway's own calls run it unless they change something and come from elsewhere. */
  lemma GatewayCallsCheckIff(reg: Registry, s: Session, r: Request)
    requires LoggedIn(s) && BranchOf(r.path).ApiPath? && IsGatewayRoute(r.path, r.verb)
    ensures Decide(reg, None, s, r) == Gateway(Api)
    ensures Checks(reg, None, s, r) <==> r.verb == "GET" || r.sameOrigin
  {
    hide BranchOf, IsGatewayRoute, Mux, Fallbacks;
    MuxByBranch(reg, s, r);
  }

  // ---------------------------------------------------------------- sessions over visits

  /** A request, what the registry and the host index say when it comes, and its clock readings. */
  datatype Visit = Visit(reg: Registry, target: Option<Hosts.Target>, request: Request, at: S.Request)

  predicate Checked(v: Visit, user: string) {
    Checks(v.reg, v.target, Session(true, user), v.request)
  }

  function After(h: S.Held, v: Visit, user: string, ttl: nat): S.Held {
    if Checked(v, user) then S.Served(h, v.at, ttl) else h
  }

  predicate AllAccepted(h: S.Held, user: string, visits: seq<Visit>, ttl: nat)
    decreases |visits|
  {
    visits != [] ==>
      && S.Accepts(h, visits[0].at.validRev, visits[0].at.validAt)
      && AllAccepted(After(h, visits[0], user, ttl), user, visits[1..], ttl)
  }

  /** No visit comes more than `gap` after the last one that was checked. */
  predicate CheckedOften(last: int, user: string, visits: seq<Visit>, gap: nat)
    decreases |visits|
  {
    visits != [] ==>
      var v := visits[0];
      && S.Timely(v.at) && last <= v.at.checkAt <= last + gap
      && CheckedOften(if Checked(v, user) then v.at.checkAt else last, user, visits[1..], gap)
  }

  ghost predicate Steady(visits: seq<Visit>, rev: string) {
    forall v :: v in visits ==> v.at.validRev == rev && v.at.issueRev == rev
  }

  /**
    * A session lasts through whatever visits, checked or not, as long as none of them comes a
    * quarter of the lifetime or more after the last checked one.
    */
  lemma {:induction false} CheckedActivityLasts(h: S.Held, user: string, visits: seq<Visit>, ttl: nat, last: int, gap: nat)
    requires h.expiry - last >= ttl / 4 && last >= 0 && (gap < ttl / 4 || gap == 0)
    requires Steady(visits, h.rev) && CheckedOften(last, user, visits, gap)
    ensures AllAccepted(h, user, visits, ttl)
    decreases |visits|
  {
    hide Checked;
    if visits != [] {
      var v := visits[0];
      assert v in visits && forall x :: x in visits[1..] ==> x in visits;
      var next := if Checked(v, user) then v.at.checkAt else last;
      CheckedActivityLasts(After(h, v, user, ttl), user, visits[1..], ttl, next, gap);
    }
  }

  /** Activity that is never checked does not count: the session ends when its token expires. */
  lemma {:induction false} UncheckedActivityExpires(h: S.Held, user: string, visits: seq<Visit>, ttl: nat)
    requires Steady(visits, h.rev) && forall v :: v in visits ==> !Checked(v, user)
    ensures AllAccepted(h, user, visits, ttl) <==> forall v :: v in visits ==> v.at.validAt <= h.expiry
    decreases |visits|
  {
    hide Checked;
    if visits != [] {
      assert visits[0] in visits && forall x :: x in visits <==> x == visits[0] || x in visits[1..];
      UncheckedActivityExpires(h, user, visits[1..], ttl);
    }
  }

  ghost predicate SilentWrites(user: string, visits: seq<Visit>) {
    forall v :: v in visits ==>
      && v.target.None? && IsSilentWrite(v.reg, user, v.request)
      && Decide(v.reg, None, Session(true, user), v.request).Forward?
  }

  /** So a client that only writes to bare service paths loses its session in the middle of its work. */
  lemma {:induction false} SilentWritesExpire(h: S.Held, user: string, visits: seq<Visit>, ttl: nat)
    requires Steady(visits, h.rev) && SilentWrites(user, visits)
    ensures AllAccepted(h, user, visits, ttl) <==> forall v :: v in visits ==> v.at.validAt <= h.expiry
  {
    hide Decide, IsSilentWrite, Checks, AllAccepted, Steady;
    forall v | v in visits
      ensures !Checked(v, user)
    {
      ForwardsAreCheckedIff(v.reg, v.target, Session(true, user), v.request);
    }
    UncheckedActivityExpires(h, user, visits, ttl);
  }
}
