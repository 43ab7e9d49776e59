/**
  * Sliding sessions over whole runs: each request validates the token the browser holds, may
  * find it due for a refresh, and may be answered with a new token.  The three steps read the
  * clock, and the account's revision, separately.
  */
module Sessions {
  import opened Basics
  import opened ServicePaths
  import opened Tokens

  /** A token as its parts; the browser holds one per user. */
  datatype Held = Held(expiry: int, rev: string)

  /** The readings one request takes; the last two are for the new token, if it issues one. */
  datatype Request = Request(validRev: string, validAt: int, checkAt: int, issueRev: string, issueAt: int)

  predicate Accepts(h: Held, rev: string, now: int) {
    h.rev == rev && now <= h.expiry
  }

  /** The tokens behave as their parts do: accepted exactly at their own revision until they expire. */
  lemma TokensAreHeld(mac: Mac, user: string, rev: string, issued: int, ttl: int, current: string, now: int)
    requires HexMac(mac) && Injective(mac) && IsValidUsername(user) && IsField(rev) && IsField(current)
    requires InRange(issued + ttl)
    ensures ValidateSession(mac, CreateSession(mac, user, rev, issued, ttl), current, now) ==
              if Accepts(Held(issued + ttl, rev), current, now) then Some(Session(user, issued + ttl)) else None
  {
    SessionRecovers(mac, user, rev, issued, ttl, now);
    SessionRecovers(mac, user, rev, issued, ttl, issued + ttl);
    hide ValidateSession, CreateSession, HexMac, Injective, IsValidUsername, IsField;
    if current != rev {
      RevisionRevokes(mac, CreateSession(mac, user, rev, issued, ttl), rev, issued + ttl, current, now);
    }
  }

  /** Less than a quarter of the lifetime is left, but not none. */
  predicate ShouldRefresh(expiry: int, ttl: nat, now: int) {
    expiry != 0 && 0 < expiry - now < ttl / 4
  }

  predicate Refreshes(h: Held, r: Request, ttl: nat) {
    Accepts(h, r.validRev, r.validAt) && ShouldRefresh(h.expiry, ttl, r.checkAt)
  }

  function Served(h: Held, r: Request, ttl: nat): Held {
    if Refreshes(h, r, ttl) then Held(r.issueAt + ttl, r.issueRev) else h
  }

  function ServedAll(h: Held, run: seq<Request>, ttl: nat): Held
    decreases |run|
  {
    if run == [] then h else ServedAll(Served(h, run[0], ttl), run[1..], ttl)
  }

  // ---------------------------------------------------------------- an active session never expires

  predicate Timely(r: Request) {
    0 < r.validAt <= r.checkAt <= r.issueAt
  }

  /** Refresh checks follow one another at most `gap` apart. */
  predicate Spaced(last: int, run: seq<Request>, gap: nat)
    decreases |run|
  {
    run != [] ==>
      Timely(run[0]) && last <= run[0].checkAt <= last + gap && Spaced(run[0].checkAt, run[1..], gap)
  }

  /** The password does not change. */
  predicate Steady(run: seq<Request>, rev: string) {
    forall r :: r in run ==> r.validRev == rev && r.issueRev == rev
  }

  predicate AllAccepted(h: Held, run: seq<Request>, ttl: nat)
    decreases |run|
  {
    run != [] ==> Accepts(h, run[0].validRev, run[0].validAt) && AllAccepted(Served(h, run[0], ttl), run[1..], ttl)
  }

  /** A session with a quarter of its lifetime left at the last check lasts while checks keep coming. */
  lemma {:induction false} ActiveSessionsLast(h: Held, run: seq<Request>, ttl: nat, last: int, gap: nat)
    requires h.expiry - last >= ttl / 4 && last >= 0 && (gap < ttl / 4 || gap == 0)
    requires Steady(run, h.rev) && Spaced(last, run, gap)
    ensures AllAccepted(h, run, ttl)
    decreases |run|
  {
    if run != [] {
      var r := run[0];
      assert r in run && forall x :: x in run[1..] ==> x in run;
      ActiveSessionsLast(Served(h, r, ttl), run[1..], ttl, r.checkAt, gap);
    }
  }

  /** A request all of whose clock readings are at `t`. */
  function At(rev: string, t: int): Request {
    Request(rev, t, t, rev, t)
  }

  /** A request that leaves the token alone changes nothing for those after it. */
  lemma Prepend(h: Held, r: Request, rest: seq<Request>, ttl: nat, last: int, gap: nat)
    requires Timely(r) && last <= r.checkAt <= last + gap && r.validRev == r.issueRev == h.rev
    requires Served(h, r, ttl) == h
    requires Steady(rest, h.rev) && Spaced(r.checkAt, rest, gap) && !AllAccepted(h, rest, ttl)
    ensures Steady([r] + rest, h.rev) && Spaced(last, [r] + rest, gap) && !AllAccepted(h, [r] + rest, ttl)
  {
    assert ([r] + rest)[1..] == rest;
  }

  lemma TooLate(h: Held, ttl: nat, gap: nat)
    requires h.expiry >= 0 && gap >= 1
    ensures var run := [At(h.rev, h.expiry + 1)];
            Steady(run, h.rev) && Spaced(h.expiry, run, gap) && !AllAccepted(h, run, ttl)
  {
    assert [At(h.rev, h.expiry + 1)][1..] == [];
  }

  /**
    * Requests a quarter of the lifetime apart, or more, can miss the refresh: one comes when
    * exactly a quarter is left, the next when nothing is, and neither is refreshed.
    */
  lemma {:induction false} QuarterIsTooLate(h: Held, ttl: nat, gap: nat, last: int) returns (run: seq<Request>)
    requires last >= 0 && h.expiry - last >= ttl / 4 && gap >= 1 && gap >= ttl / 4
    ensures Steady(run, h.rev) && Spaced(last, run, gap) && !AllAccepted(h, run, ttl)
    decreases h.expiry - last
  {
    if h.expiry - last > ttl / 4 {
      var rest := QuarterIsTooLate(h, ttl, gap, last + 1);
      Prepend(h, At(h.rev, last + 1), rest, ttl, last, gap);
      run := [At(h.rev, last + 1)] + rest;
    } else {
      TooLate(h, ttl, gap);
      run := [At(h.rev, h.expiry + 1)];
      if ttl / 4 > 0 {
        Prepend(h, At(h.rev, h.expiry), run, ttl, last, gap);
        run := [At(h.rev, h.expiry)] + run;
      }
    }
  }

  /**
    * Sliding sessions, exactly: with the password unchanged, no run of requests from a login
    * on, with refresh checks at most `gap` seconds apart, ever meets an expired session, if and
    * only if `gap` is less than a quarter of the lifetime (or the clock stands still).
    */
  lemma SessionsLastIffBelowQuarter(issued: int, rev: string, ttl: nat, gap: nat)
    requires issued >= 0
    ensures (forall run :: Steady(run, rev) && Spaced(issued, run, gap) ==> AllAccepted(Held(issued + ttl, rev), run, ttl))
            <==> (gap < ttl / 4 || gap == 0)
  {
    var h := Held(issued + ttl, rev);
    hide Steady, Spaced, AllAccepted;
    if gap < ttl / 4 || gap == 0 {
      forall run | Steady(run, rev) && Spaced(issued, run, gap)
        ensures AllAccepted(h, run, ttl)
      {
        ActiveSessionsLast(h, run, ttl, issued, gap);
      }
    } else {
      var run := QuarterIsTooLate(h, ttl, gap, issued);
    }
  }

  /** No token outlives its issue by more than the lifetime, however often it is refreshed. */
  lemma {:induction false} ExpiryIsBounded(h: Held, run: seq<Request>, ttl: nat, now: int)
    requires h.expiry <= now + ttl && forall r :: r in run ==> r.issueAt <= now
    ensures ServedAll(h, run, ttl).expiry <= now + ttl
    decreases |run|
  {
    if run != [] {
      assert run[0] in run && forall x :: x in run[1..] ==> x in run;
      ExpiryIsBounded(Served(h, run[0], ttl), run[1..], ttl, now);
    }
  }

  // ---------------------------------------------------------------- a changed password revokes

  /** No request is accepted, and the token stays what it was. */
  lemma {:induction false} RevokedStaysRevoked(h: Held, run: seq<Request>, ttl: nat)
    requires forall r :: r in run ==> r.validRev != h.rev
    ensures ServedAll(h, run, ttl) == h && forall r :: r in run ==> !Accepts(h, r.validRev, r.validAt)
    decreases |run|
  {
    if run != [] {
      assert run[0] in run && forall x :: x in run[1..] ==> x in run;
      RevokedStaysRevoked(h, run[1..], ttl);
    }
  }

  /** Requests validated before the password changed; a refresh may still be issued after it. */
  predicate Before(run: seq<Request>, rev: string, next: string) {
    forall r :: r in run ==> r.validRev == rev && (r.issueRev == rev || r.issueRev == next)
  }

  /** Some request was validated before the change and issued its refresh after it. */
  predicate Straddles(h: Held, run: seq<Request>, ttl: nat, next: string)
    decreases |run|
  {
    run != [] && ((Refreshes(h, run[0], ttl) && run[0].issueRev == next)
                  || Straddles(Served(h, run[0], ttl), run[1..], ttl, next))
  }

  lemma {:induction false} StraddlingMovesOn(h: Held, run: seq<Request>, ttl: nat, next: string)
    requires h.rev != next && Before(run, h.rev, next)
    ensures ServedAll(h, run, ttl).rev == if Straddles(h, run, ttl, next) then next else h.rev
    decreases |run|
  {
    if run != [] {
      var h' := Served(h, run[0], ttl);
      assert run[0] in run && forall x :: x in run[1..] ==> x in run;
      if h'.rev == next {
        RevokedStaysRevoked(h', run[1..], ttl);
      } else {
        StraddlingMovesOn(h', run[1..], ttl, next);
      }
    }
  }

  /**
    * Revocation, exactly: after the revision changes, no token that was held before it, nor
    * any refresh of one, is ever accepted again, if and only if no request straddled the
    * change (validated at the old revision, refreshed at the new one).
    */
  lemma ChangeRevokesIffNoStraddle(h: Held, run: seq<Request>, ttl: nat, next: string)
    requires h.rev != next && Before(run, h.rev, next)
    ensures (forall now :: !Accepts(ServedAll(h, run, ttl), next, now)) <==> !Straddles(h, run, ttl, next)
  {
    StraddlingMovesOn(h, run, ttl, next);
    hide Straddles, ServedAll, Before;
    if Straddles(h, run, ttl, next) {
      assert Accepts(ServedAll(h, run, ttl), next, ServedAll(h, run, ttl).expiry);
    }
  }
}
