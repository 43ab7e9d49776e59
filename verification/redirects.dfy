/**
  * Mapping paths between the gateway and a backend: where a request goes below the
  * backend's own base path, and where a redirect the backend issues must send the browser so
  * that following it leads back to the place the backend meant.
  */
module Redirects {
  import opened Basics
  import opened Text
  import opened ServicePaths
  import opened UserConfig
  import opened Routing
  import opened UrlPaths

  // ---------------------------------------------------------------- the code

  function Rooted(p: string): (r: string)
    ensures r != "" && r[0] == '/'
  {
    if p != "" && p[0] == '/' then p else ['/'] + p
  }

  predicate FileLike(bp: string) {
    !HasSuffix(bp, "/") && '.' in Base(bp)
  }

  function JoinBackendPath(backendPath: string, remaining: string): string {
    var bp := TrimSpace(backendPath);
    if bp == "" || bp == "/" then OrSlash(remaining)
    else
      var full := Rooted(bp);
      if remaining == "" || remaining == "/" then Clean(full)
      else JoinPath(if FileLike(full) then Dir(full) else full, remaining)
  }

  /** The path below the backend's base path, if there is such a path to strip. */
  function StripBackendPath(loc: string, backendPath: string): Option<string> {
    var trimmed := TrimSpace(backendPath);
    if trimmed == "" || trimmed == "/" then None
    else
      var bp := Rooted(trimmed);
      if loc == bp then Some("/")
      else if bp + "?" <= loc then Some("/" + loc[|bp|..])
      else if FileLike(bp) then
        var dir := Dir(bp);
        if loc == dir then Some("/")
        else if dir + "/" <= loc then Some(loc[|dir|..])
        else None
      else
        var base := TrimSlashes(bp);
        TrimSlashesResult(bp);
        if base == "" then None
        else if loc == base then Some("/")
        else if base + "/" <= loc || base + "?" <= loc then Some(loc[|base|..])
        else None
  }

  /** Canonical forwarding puts the service under a prefix; the other modes own the root. */
  datatype Mode = Prefixed(prefix: string) | AtRoot

  /** An absolute URL as parsed: whether its host is the backend's, and its path with query. */
  datatype Absolute = Unparsable | Absolute(sameHost: bool, pathAndQuery: string)

  predicate IsAbsolute(loc: string) {
    "http://" <= loc || "https://" <= loc
  }

  /** The rewritten Location, or `None` to leave it as it is. */
  function RewriteLocation(loc: string, url: Absolute, backendPath: string, mode: Mode): Option<string> {
    if loc == "" || "/proxy/" <= loc then None
    else if IsAbsolute(loc) && (url.Unparsable? || !url.sameHost) then None
    else
      var local := if IsAbsolute(loc) then url.pathAndQuery else loc;
      if !("/" <= local) || "//" <= local then None
      else
        var stripped := StripBackendPath(local, backendPath);
        var rel := if stripped.Some? then stripped.value else local;
        Some(if mode.AtRoot? then rel else mode.prefix + rel)
  }

  // ---------------------------------------------------------------- which redirects are rewritten

  /** A path on the host it is asked of: a second slash would start another host. */
  predicate StartsPath(p: string) {
    p != "" && p[0] == '/' && (|p| > 1 ==> p[1] != '/')
  }

  /**
    * A Location is left alone if it is empty, relative, already under /proxy/, names a host
    * without a scheme, or is an absolute URL that cannot be parsed or is not the backend's own;
    * every other one is rewritten.
    */
  lemma RewrittenIff(loc: string, url: Absolute, backendPath: string, mode: Mode)
    ensures RewriteLocation(loc, url, backendPath, mode).Some? <==>
            || (StartsPath(loc) && !("/proxy/" <= loc))
            || (|loc| >= 7 && loc[..7] == "http://" && url.Absolute? && url.sameHost && StartsPath(url.pathAndQuery))
            || (|loc| >= 8 && loc[..8] == "https://" && url.Absolute? && url.sameHost && StartsPath(url.pathAndQuery))
  {
    hide StripBackendPath;
    PrefixStarts("http://", loc);
    PrefixStarts("https://", loc);
    PrefixStarts("/proxy/", loc);
    OneOrTwoSlashes(loc);
    if url.Absolute? {
      OneOrTwoSlashes(url.pathAndQuery);
    }
  }

  lemma PrefixStarts(a: string, s: string)
    requires a != ""
    ensures a <= s <==> |s| >= |a| && s[..|a|] == a
    ensures a <= s ==> s != "" && s[0] == a[0]
  {
  }

  lemma OneOrTwoSlashes(p: string)
    ensures StartsPath(p) <==> "/" <= p && !("//" <= p)
  {
  }

  // ---------------------------------------------------------------- joining undoes stripping

  /**
    * A backend path as the code uses it: clean but for a final slash, without surrounding
    * spaces or a query.
    */
  predicate PlainBackend(bp: string) {
    IsPath(bp) && Trimmed(bp) && '?' !in bp
  }

  /** The directory everything of the backend lives in. */
  function Root(bp: string): string
    requires bp != "" && bp[0] == '/'
  {
    if FileLike(bp) then Dir(bp) else Unslashed(bp)
  }

  predicate Below(dir: string, p: string) {
    dir == "/" || p == dir || dir + "/" <= p
  }

  predicate IsQuery(q: string) {
    q != "" ==> q[0] == '?'
  }

  /** What is left of a backend path and query when they can be stripped, and otherwise all. */
  function Relative(bp: string, p: string): string {
    var stripped := StripBackendPath(p, bp);
    if stripped.Some? then stripped.value else p
  }

  /** The path a redirect to `p` with query `q` takes below the service. */
  function Landing(bp: string, p: string, q: string): string
    requires bp != "" && bp[0] == '/'
  {
    if bp == "/" then p
    else if p == bp then "/"
    else if p == Root(bp) then (if q == "" then "/" else if FileLike(bp) then p else "")
    else if Root(bp) != "/" && Root(bp) + "/" <= p then p[|Root(bp)|..]
    else p
  }

  lemma PlainStarts(bp: string)
    requires PlainBackend(bp)
    ensures bp != "" && bp[0] == '/' && IsPath(bp) && TrimSpace(bp) == bp && Rooted(bp) == bp
  {
    PathCases(bp);
    TrimSpaceFixes(bp);
    hide IsPath, IsClean, Unslashed, TrimSpace;
  }

  lemma TrimSlashesIs(c: string)
    requires c != "" && c[|c| - 1] != '/'
    ensures TrimSlashes(c) == c && TrimSlashes(c + "/") == c
  {
    assert (c + "/")[..|c|] == c;
  }

  lemma FileLikeUnslashed(bp: string)
    requires bp != "" && FileLike(bp)
    ensures Unslashed(bp) == bp
  {
    assert bp[|bp| - 1..] == [bp[|bp| - 1]];
    hide Base;
  }

  lemma RootIs(bp: string)
    requires bp != "" && bp[0] == '/'
    ensures Root(bp) == if FileLike(bp) then Dir(bp) else Unslashed(bp)
  {
    hide FileLike, Dir, Unslashed;
  }

  lemma UnslashedChars(p: string, c: char)
    requires c !in p
    ensures c !in Unslashed(p)
  {
  }

  lemma PrefixChars(a: string, p: string, c: char)
    requires a <= p && c !in p
    ensures c !in a
  {
    assert a == p[..|a|];
  }

  lemma DirParts(c: string)
    requires IsClean(c) && c != "/" && '?' !in c
    ensures c != "" && c[0] == '/' && c[|c| - 1] != '/'
    ensures IsClean(Dir(c)) && Dir(c) != "" && '?' !in Dir(c) && Dir(c) != c && (Dir(c) == "/" || Dir(c) + "/" <= c)
  {
    hide *;
    CleanStarts(c, c);
    CleanDirBase(c);
    CleanStarts(Dir(c), c);
    if Dir(c) != "/" {
      PrefixChars(Dir(c) + "/", c, '?');
      DirIsNotInside(c);
    }
  }

  lemma PlainParts(bp: string)
    requires PlainBackend(bp) && bp != "/"
    ensures bp != "" && bp[0] == '/' && Root(bp) != "" && IsClean(Root(bp)) && '?' !in Root(bp)
    ensures TrimSlashes(bp) == Unslashed(bp) != "/"
    ensures if FileLike(bp) then Unslashed(bp) == bp && Root(bp) == Dir(bp) != bp && (Dir(bp) == "/" || Dir(bp) + "/" <= bp)
            else Root(bp) == Unslashed(bp)
  {
    hide *;
    PlainIsPath(bp);
    PlainHasNoQuery(bp);
    PathCases(bp);
    RootIs(bp);
    UnslashedChars(bp, '?');
    DirParts(Unslashed(bp));
    TrimSlashesIs(Unslashed(bp));
    if FileLike(bp) {
      FileLikeUnslashed(bp);
    }
  }

  lemma CleanStarts(a: string, b: string)
    requires IsClean(a) && IsClean(b)
    ensures a != "" && a[0] == '/' && b != "" && b[0] == '/'
  {
  }

  /** What a path with a query can be compared to. */
  lemma Marks(a: string, p: string, q: string)
    requires '?' !in a && '?' !in p && IsQuery(q)
    ensures p + q == a <==> q == "" && p == a
    ensures a + "?" <= p + q <==> q != "" && p == a
    ensures a + "/" <= p + q <==> a + "/" <= p
  {
    assert (p + q)[..|p|] == p && (p + q)[|p|..] == q && (a + "?")[|a|] == '?' && (a + "/")[|a|] == '/';
    assert a + "/" <= p + q ==> a + "/" == (p + q)[..|a| + 1];
    assert a + "?" <= p + q ==> a + "?" == (p + q)[..|a| + 1];
    if q != "" {
      assert (p + q)[|p|] == '?';
    }
    assert |a| < |p| ==> (p + q)[|a|] == p[|a|] != '?';
  }

  lemma StripWhole(bp: string, p: string, q: string)
    requires PlainBackend(bp) && bp != "/" && '?' !in p && IsQuery(q) && p == bp
    ensures Relative(bp, p + q) == "/" + q
  {
    PlainStarts(bp);
    Marks(bp, p, q);
    hide TrimSpace, FileLike, Dir, IsPath, Trimmed, TrimSlashes, IsQuery, Rooted;
    assert q != "" ==> (p + q)[|bp|..] == q;
    assert "/" + "" == "/";
  }

  /** Of a file-like backend path, its directory is stripped. */
  lemma FileIsStripped(bp: string, loc: string)
    requires PlainBackend(bp) && bp != "/" && FileLike(bp) && loc != bp && !(bp + "?" <= loc)
    ensures bp != "" && bp[0] == '/'
    ensures Relative(bp, loc) == if loc == Dir(bp) then "/" else if Dir(bp) + "/" <= loc then loc[|Dir(bp)|..] else loc
  {
    PlainStarts(bp);
    hide TrimSpace, FileLike, Dir, TrimSlashes, Rooted, PlainBackend;
  }

  lemma StripBelowFile(bp: string, p: string, q: string)
    requires PlainBackend(bp) && bp != "/" && '?' !in p && IsQuery(q) && p != bp && FileLike(bp)
    ensures bp != "" && bp[0] == '/'
    ensures Relative(bp, p + q) ==
              if p == Dir(bp) && q == "" then "/" else if Dir(bp) + "/" <= p then p[|Dir(bp)|..] + q else p + q
  {
    hide *;
    PlainHasNoQuery(bp);
    PlainParts(bp);
    Marks(bp, p, q);
    Marks(Dir(bp), p, q);
    FileIsStripped(bp, p + q);
    assert Dir(bp) + "/" <= p ==> (p + q)[|Dir(bp)|..] == p[|Dir(bp)|..] + q;
  }

  lemma PlainHasNoQuery(bp: string)
    requires PlainBackend(bp)
    ensures '?' !in bp
  {
  }

  lemma StripBelow(bp: string, p: string, q: string)
    requires PlainBackend(bp) && bp != "/" && '?' !in p && IsQuery(q) && p != bp && !FileLike(bp)
    ensures var base := Unslashed(bp);
            Relative(bp, p + q) ==
            if p == base then (if q == "" then "/" else q) else if base + "/" <= p then p[|base|..] + q else p + q
  {
    PlainStarts(bp);
    PlainParts(bp);
    Marks(bp, p, q);
    Marks(Root(bp), p, q);
    hide TrimSpace, FileLike, Dir, IsPath, IsClean, Trimmed, TrimSlashes, IsQuery, Rooted, Unslashed, Below, PlainBackend;
    assert p == Root(bp) ==> (p + q)[|Root(bp)|..] == q;
    assert Root(bp) + "/" <= p ==> (p + q)[|Root(bp)|..] == p[|Root(bp)|..] + q;
  }

  lemma LandingAtFile(bp: string, p: string, q: string)
    requires bp != "" && bp[0] == '/' && bp != "/" && !("//" <= p) && p != bp && FileLike(bp)
    ensures Landing(bp, p, q) ==
              if p == Dir(bp) then (if q == "" then "/" else p) else if Dir(bp) + "/" <= p then p[|Dir(bp)|..] else p
  {
    hide FileLike, Dir, Unslashed;
    assert "/" + "/" == "//";
  }

  lemma LandingAtDirectory(bp: string, p: string, q: string)
    requires bp != "" && bp[0] == '/' && bp != "/" && p != bp && !FileLike(bp) && Unslashed(bp) != "/"
    ensures Landing(bp, p, q) ==
              if p == Unslashed(bp) then (if q == "" then "/" else "")
              else if Unslashed(bp) + "/" <= p then p[|Unslashed(bp)|..] else p
  {
    hide FileLike, Dir, Unslashed;
  }

  lemma LandingAtBackendPath(bp: string, q: string)
    requires bp != "" && bp[0] == '/'
    ensures Landing(bp, bp, q) == "/"
  {
    hide FileLike, Dir, Unslashed;
  }

  lemma DirIsNotInside(dir: string)
    ensures !(dir + "/" <= dir)
  {
  }

  lemma StripIs(bp: string, p: string, q: string)
    requires PlainBackend(bp) && bp != "/" && IsPath(p) && '?' !in p && IsQuery(q)
    ensures bp != "" && bp[0] == '/' && Relative(bp, p + q) == Landing(bp, p, q) + q
  {
    hide *;
    PlainStarts(bp);
    PlainParts(bp);
    PathCases(p);
    DirIsNotInside(p);
    assert p + "" == p && "" + q == q && "/" + "" == "/";
    if p == bp {
      StripWhole(bp, p, q);
      LandingAtBackendPath(bp, q);
    } else if FileLike(bp) {
      StripBelowFile(bp, p, q);
      LandingAtFile(bp, p, q);
    } else {
      StripBelow(bp, p, q);
      LandingAtDirectory(bp, p, q);
    }
  }

  /** A query is carried along. */
  lemma RelativeIs(bp: string, p: string, q: string)
    requires PlainBackend(bp) && IsPath(p) && '?' !in p && IsQuery(q)
    ensures bp != "" && bp[0] == '/' && Relative(bp, p + q) == Landing(bp, p, q) + q
  {
    PlainStarts(bp);
    hide TrimSpace, FileLike, Dir, IsPath, TrimSlashes, Landing, PlainBackend;
    if bp == "/" {
      assert Landing(bp, p, q) == p by {
        LandingOfSlash(p, q);
      }
    } else {
      StripIs(bp, p, q);
    }
  }

  lemma LandingOfSlash(p: string, q: string)
    ensures Landing("/", p, q) == p && Root("/") == "/" && !FileLike("/")
  {
    assert "/"[0..] == "/";
  }

  /** Where the backend is asked for a path of the service. */
  lemma JoinIs(bp: string, r: string)
    requires PlainBackend(bp) && IsPath(r)
    ensures bp != "" && bp[0] == '/'
    ensures JoinBackendPath(bp, r) ==
              if bp == "/" then r else if r == "/" then Unslashed(bp)
              else if Root(bp) == "/" then Unslashed(r) else Root(bp) + Unslashed(r)
  {
    PlainStarts(bp);
    PathCases(r);
    if bp != "/" {
      PlainParts(bp);
      PathCases(bp);
      CleanUnslashes(bp);
      CleanIsPath(Root(bp));
      JoinPaths(if FileLike(bp) then Dir(bp) else bp, r);
    }
    hide TrimSpace, FileLike, Dir, IsClean, IsPath, Trimmed, Clean, Unslashed, Rooted, TrimSlashes;
  }

  lemma RestElements(dir: string, p: string)
    requires dir != "" && dir[0] == '/' && p != "" && p[0] == '/' && dir != "/" && dir + "/" <= p
    ensures var rest := p[|dir|..];
            && rest != "" && rest[0] == '/' && p == dir + rest
            && Split(p[1..], '/') == Split(dir[1..], '/') + Split(rest[1..], '/')
  {
    hide Split;
    var a, b, rest := dir[1..], p[|dir| + 1..], p[|dir|..];
    assert rest == ['/'] + b && rest[1..] == b;
    assert p[1..] == a + ['/'] + b;
    SplitConcat(a, b, '/');
  }

  /** What is left of a clean path below a directory is clean. */
  lemma RestIsClean(dir: string, p: string)
    requires dir != "" && dir[0] == '/' && dir != "/" && IsClean(p) && dir + "/" <= p
    ensures IsClean(p[|dir|..]) && p[|dir|..] != "/"
  {
    assert "/"[1..] == "";
    RestElements(dir, p);
    EmptySplit("");
    NoEmptyElement();
    hide Split, IsElement;
    var rest := p[|dir|..];
    assert forall e :: e in Split(rest[1..], '/') ==> e in Elements(p);
  }

  lemma EmptySplit(b: string)
    ensures b == "" ==> "" in Split(b, '/')
  {
    SplitStart("", '/');
  }

  lemma NoEmptyElement()
    ensures !IsElement("")
  {
  }

  /** And what is left of a path is a path. */
  lemma RestIsPath(dir: string, p: string)
    requires dir != "" && dir[0] == '/' && dir != "/" && IsPath(p) && dir + "/" <= p
    ensures var rest := p[|dir|..];
            IsPath(rest) && p == dir + rest && (rest == "/" || dir + Unslashed(rest) == Unslashed(p))
  {
    PathCases(p);
    var c, rest := Unslashed(p), p[|dir|..];
    hide IsClean, IsPath, Unslashed;
    if dir + "/" <= c {
      RestIsClean(dir, c);
      CleanIsPath(c[|dir|..]);
      SlashedIsPath(c[|dir|..]);
      assert c != p ==> rest == c[|dir|..] + "/";
      assert dir + c[|dir|..] == c;
    } else {
      assert p == dir + "/" && rest == "/";
      SlashIsPath();
    }
  }

  /**
    * What a redirect can keep.  Without a backend path, everything; with one, a path without a
    * final slash in the backend's directory, except that the directory of a file-like backend
    * path cannot be told from the file.
    */
  predicate Kept(bp: string, p: string)
    requires bp != "" && bp[0] == '/'
  {
    bp == "/" || (Unslashed(p) == p && Below(Root(bp), p) && !(p == Root(bp) && FileLike(bp)))
  }

  lemma LandingIsOneOf(bp: string, p: string, q: string)
    requires bp != "" && bp[0] == '/'
    ensures var l := Landing(bp, p, q);
            l in [p, "/", ""] || (bp != "/" && Root(bp) != "/" && Root(bp) + "/" <= p && l == p[|Root(bp)|..])
  {
    hide Root, FileLike;
  }

  /** The path below the service is a path, or nothing when only a query is left. */
  lemma LandingIsPath(bp: string, p: string, q: string)
    requires PlainBackend(bp) && IsPath(p)
    ensures bp != "" && bp[0] == '/'
    ensures IsPath(OrSlash(Landing(bp, p, q))) && (Landing(bp, p, q) != "" ==> IsPath(Landing(bp, p, q)))
  {
    hide *;
    PlainStarts(bp);
    SlashIsPath();
    LandingIsOneOf(bp, p, q);
    OrSlashIs(Landing(bp, p, q));
    if bp != "/" && Root(bp) != "/" && Root(bp) + "/" <= p {
      PlainParts(bp);
      CleanStarts(Root(bp), Root(bp));
      RestIsPath(Root(bp), p);
    }
  }

  lemma OrSlashIs(p: string)
    ensures OrSlash(p) == if p == "" then "/" else p
  {
  }

  /** Joining undoes stripping exactly on the paths that can be kept. */
  lemma JoinUndoesStrip(bp: string, p: string, q: string)
    requires PlainBackend(bp) && IsPath(p) && '?' !in p && IsQuery(q)
    ensures bp != "" && bp[0] == '/'
    ensures JoinBackendPath(bp, OrSlash(Landing(bp, p, q))) == p <==> Kept(bp, p)
  {
    hide JoinBackendPath, Root, IsPath, IsClean, FileLike, Dir, TrimSpace, TrimSlashes, Unslashed, Rooted;
    PlainStarts(bp);
    LandingIsPath(bp, p, q);
    JoinIs(bp, OrSlash(Landing(bp, p, q)));
    PathCases(p);
    if bp == "/" {
      LandingOfSlash(p, q);
    } else {
      PlainParts(bp);
      PathCases(bp);
      KeptCases(bp, p, q);
    }
  }

  lemma KeptAtRoot(bp: string, p: string, q: string)
    requires PlainBackend(bp) && bp != "/" && IsPath(p) && bp != "" && bp[0] == '/' && (p == bp || p == Root(bp))
    ensures var r := OrSlash(Landing(bp, p, q));
            Kept(bp, p) <==>
            p == if r == "/" then Unslashed(bp) else if Root(bp) == "/" then Unslashed(r) else Root(bp) + Unslashed(r)
  {
    PlainParts(bp);
    PathCases(bp);
    CleanIsPath(Root(bp));
    CleanIsPath(Unslashed(bp));
    hide IsPath, IsClean, FileLike, Dir, Unslashed, TrimSpace, TrimSlashes, Rooted, PlainBackend, Root;
  }

  lemma LandingInside(bp: string, p: string, q: string)
    requires bp != "" && bp[0] == '/' && bp != "/" && p != bp && Root(bp) != "/" && Root(bp) + "/" <= p
    ensures Landing(bp, p, q) == p[|Root(bp)|..] != "" && p != Root(bp)
    ensures OrSlash(Landing(bp, p, q)) == Landing(bp, p, q)
    ensures Kept(bp, p) <==> Unslashed(p) == p
  {
    DirIsNotInside(Root(bp));
    hide Root, Unslashed, FileLike;
  }

  lemma KeptInside(bp: string, p: string, q: string)
    requires PlainBackend(bp) && bp != "/" && IsPath(p) && bp != "" && bp[0] == '/' && p != bp
    requires Root(bp) != "/" && Root(bp) + "/" <= p
    ensures var r := OrSlash(Landing(bp, p, q));
            Kept(bp, p) <==> p == if r == "/" then Unslashed(bp) else Root(bp) + Unslashed(r)
  {
    hide *;
    PlainParts(bp);
    PlainIsPath(bp);
    PathCases(bp);
    LandingInside(bp, p, q);
    CleanStarts(Root(bp), Root(bp));
    RestIsPath(Root(bp), p);
    SlashedIsPath(Root(bp));
    CleanIsPath(Unslashed(bp));
  }

  lemma PlainIsPath(bp: string)
    requires PlainBackend(bp)
    ensures IsPath(bp)
  {
  }

  lemma LandingOutside(bp: string, p: string, q: string)
    requires bp != "" && bp[0] == '/' && bp != "/" && p != bp && p != Root(bp)
    requires !(Root(bp) != "/" && Root(bp) + "/" <= p)
    ensures Landing(bp, p, q) == p
    ensures Kept(bp, p) <==> Unslashed(p) == p && Root(bp) == "/"
  {
    hide Root, Unslashed, FileLike;
  }

  lemma KeptOutside(bp: string, p: string, q: string)
    requires PlainBackend(bp) && bp != "/" && IsPath(p) && bp != "" && bp[0] == '/' && p != bp && p != Root(bp)
    requires !(Root(bp) != "/" && Root(bp) + "/" <= p)
    ensures var r := OrSlash(Landing(bp, p, q));
            Kept(bp, p) <==>
            p == if r == "/" then Unslashed(bp) else if Root(bp) == "/" then Unslashed(r) else Root(bp) + Unslashed(r)
  {
    hide *;
    PlainParts(bp);
    PathCases(p);
    LandingOutside(bp, p, q);
    OrSlashIs(p);
    CleanStarts(Root(bp), Root(bp));
    assert |Root(bp)| == 1 ==> Root(bp) == "/";
    assert |Root(bp) + Unslashed(p)| == |Root(bp)| + |Unslashed(p)|;
  }

  /** Where a landing is joined to, in terms of the directory. */
  lemma KeptCases(bp: string, p: string, q: string)
    requires PlainBackend(bp) && bp != "/" && IsPath(p)
    ensures bp != "" && bp[0] == '/'
    ensures var r := OrSlash(Landing(bp, p, q));
            Kept(bp, p) <==>
            p == if r == "/" then Unslashed(bp) else if Root(bp) == "/" then Unslashed(r) else Root(bp) + Unslashed(r)
  {
    hide *;
    PlainStarts(bp);
    if p == bp || p == Root(bp) {
      KeptAtRoot(bp, p, q);
    } else if Root(bp) != "/" && Root(bp) + "/" <= p {
      KeptInside(bp, p, q);
    } else {
      KeptOutside(bp, p, q);
    }
  }

  // ---------------------------------------------------------------- rewriting a redirect

  /** The backend path as used: surrounding spaces dropped, rooted, "/" for none. */
  function BackendOf(s: Service): (bp: string)
    ensures bp != "" && bp[0] == '/'
  {
    var trimmed := TrimSpace(s.backendPath);
    if trimmed == "" then "/" else Rooted(trimmed)
  }

  lemma BackendParts(s: Service)
    ensures var t, bp := TrimSpace(s.backendPath), BackendOf(s);
            && TrimSpace(bp) == bp && Rooted(bp) == bp
            && (bp == "/" <==> t == "" || t == "/") && (bp != "/" ==> Rooted(t) == bp)
  {
    TrimSpaceTrims(s.backendPath);
    TrimSpaceFixes(BackendOf(s));
    hide TrimSpace;
  }

  lemma BackendIsUsed(s: Service, p: string)
    ensures JoinBackendPath(s.backendPath, p) == JoinBackendPath(BackendOf(s), p)
    ensures Relative(s.backendPath, p) == Relative(BackendOf(s), p)
  {
    BackendParts(s);
    hide FileLike, Dir, TrimSlashes, Clean, TrimSpace, BackendOf, Rooted, JoinPath, OrSlash;
  }

  /** A Location header that names path `p` of the backend with query `q`. */
  predicate Names(loc: string, url: Absolute, p: string, q: string) {
    if IsAbsolute(loc) then url == Absolute(true, p + q)
    else loc == p + q && !("/proxy/" <= loc)
  }

  /** A redirect to a path of the backend, and a backend path, as far as they are modelled. */
  predicate Redirected(s: Service, loc: string, url: Absolute, p: string, q: string) {
    PlainBackend(BackendOf(s)) && IsPath(p) && '?' !in p && IsQuery(q) && Names(loc, url, p, q)
  }

  lemma NotDoubledWithQuery(p: string, q: string)
    requires IsPath(p) && IsQuery(q)
    ensures p != "" && p[0] == '/' && !("//" <= p + q)
  {
    PathCases(p);
    hide IsPath;
    assert p + q != "" && (|p| > 1 ==> (p + q)[1] == p[1]) && (|p| == 1 && q != "" ==> (p + q)[1] == '?');
  }

  lemma NamesParts(loc: string, url: Absolute, p: string, q: string)
    requires Names(loc, url, p, q) && p != "" && p[0] == '/'
    ensures loc != "" && !("/proxy/" <= loc)
    ensures if IsAbsolute(loc) then url == Absolute(true, p + q) else loc == p + q
  {
    assert IsAbsolute(loc) ==> loc[0] == 'h';
    assert "/proxy/"[0] == '/';
  }

  lemma LocalIsRewritten(loc: string, url: Absolute, backendPath: string, mode: Mode, local: string)
    requires loc != "" && !("/proxy/" <= loc) && local != "" && local[0] == '/' && !("//" <= local)
    requires if IsAbsolute(loc) then url == Absolute(true, local) else loc == local
    ensures var rel := Relative(backendPath, local);
            RewriteLocation(loc, url, backendPath, mode) == Some(if mode.AtRoot? then rel else mode.prefix + rel)
  {
    hide StripBackendPath, IsAbsolute;
    assert local[..1] == "/";
  }

  lemma RewriteIs(s: Service, loc: string, url: Absolute, mode: Mode, p: string, q: string)
    requires Redirected(s, loc, url, p, q)
    ensures var to := Landing(BackendOf(s), p, q) + q;
            RewriteLocation(loc, url, s.backendPath, mode) == Some(if mode.AtRoot? then to else mode.prefix + to)
  {
    hide *;
    RedirectedParts(s, loc, url, p, q);
    NotDoubledWithQuery(p, q);
    NamesParts(loc, url, p, q);
    BackendIsUsed(s, p + q);
    RelativeIs(BackendOf(s), p, q);
    assert (p + q)[0] == p[0];
    LocalIsRewritten(loc, url, s.backendPath, mode, p + q);
  }

  lemma RedirectedParts(s: Service, loc: string, url: Absolute, p: string, q: string)
    requires Redirected(s, loc, url, p, q)
    ensures PlainBackend(BackendOf(s)) && IsPath(p) && '?' !in p && IsQuery(q) && Names(loc, url, p, q)
  {
  }

  lemma ReturnsIffKept(s: Service, loc: string, url: Absolute, p: string, q: string)
    requires Redirected(s, loc, url, p, q)
    ensures var rel := Landing(BackendOf(s), p, q);
            && IsPath(OrSlash(rel)) && (rel == "" || IsPath(rel))
            && (JoinBackendPath(s.backendPath, OrSlash(rel)) == p <==> Kept(BackendOf(s), p))
  {
    hide JoinBackendPath, IsPath, PlainBackend, BackendOf, Landing, IsQuery, Kept, Names;
    BackendIsUsed(s, OrSlash(Landing(BackendOf(s), p, q)));
    JoinUndoesStrip(BackendOf(s), p, q);
    LandingIsPath(BackendOf(s), p, q);
  }

  // ---------------------------------------------------------------- following a redirect

  /** No service nested below this one claims the path. */
  predicate Unnested(services: seq<Service>, s: Service, p: string) {
    forall t :: t in services && Covers(t.path, p) ==> |t.path| <= |s.path|
  }

  /** What routing demands of a user's services. */
  predicate Routable(services: seq<Service>) {
    UniquePaths(services) && forall t :: t in services ==> t.path != "" && t.path[0] == '/'
  }

  lemma MountedPath(username: string, s: Service, rel: string)
    requires s.path != "/" && (rel == "" || rel[0] == '/')
    ensures Mount(username, s.path) + rel == "/proxy/" + username + (s.path + rel)
    ensures Covers(s.path, s.path + rel)
    ensures Routing.Canonical(username, s, s.path + rel) == Match(username, s, OrSlash(rel), false)
  {
    assert (s.path + rel)[|s.path|..] == rel;
    assert rel != "" ==> s.path + "/" == (s.path + rel)[..|s.path| + 1];
    assert rel == "" ==> s.path + rel == s.path;
  }

  lemma MountFinds(reg: Registry, username: string, s: Service, rel: string)
    requires username in reg && IsValidUsername(username) && s in reg[username].services && s.path != "/"
    requires Routable(reg[username].services) && (rel == "" || rel[0] == '/')
    ensures Found(reg, Mount(username, s.path) + rel) == Some(Match(username, s, OrSlash(rel), false)) <==>
            Unnested(reg[username].services, s, s.path + rel)
  {
    hide Found, Mount, Covers, IsValidUsername, OrSlash, Routing.Canonical;
    MountedPath(username, s, rel);
    MountLeadsBack(reg, username, s, s.path + rel);
  }

  lemma PathStarts(p: string)
    requires IsPath(p)
    ensures p != "" && p[0] == '/'
  {
    PathCases(p);
  }

  /**
    * Redirect closure.  For a service not at "/", a Location the backend issues for path `p`
    * is rewritten to a gateway path below the service's mount.  That path is routed to the
    * same service if and only if no service nested in it claims the path; and the request
    * then made of the backend is for `p` again if and only if there is no backend path, or
    * `p` has no final slash, lies in the backend path's directory and is not that directory
    * itself standing in for a file-like backend path.
    */
  lemma RedirectClosure(reg: Registry, username: string, s: Service, loc: string, url: Absolute, p: string, q: string)
    requires username in reg && IsValidUsername(username) && s in reg[username].services && s.path != "/"
    requires Routable(reg[username].services) && Redirected(s, loc, url, p, q)
    ensures var rel, mount := Landing(BackendOf(s), p, q), Mount(username, s.path);
            && RewriteLocation(loc, url, s.backendPath, Prefixed(mount)) == Some(mount + rel + q)
            && (IsClean(s.path) ==> CleanPath(mount + rel) == mount + rel)
            && (Found(reg, mount + rel) == Some(Match(username, s, OrSlash(rel), false)) <==>
                  Unnested(reg[username].services, s, s.path + rel))
            && (JoinBackendPath(s.backendPath, OrSlash(rel)) == p <==> Kept(BackendOf(s), p))
  {
    hide *;
    var rel, mount := Landing(BackendOf(s), p, q), Mount(username, s.path);
    RewriteIs(s, loc, url, Prefixed(mount), p, q);
    ReturnsIffKept(s, loc, url, p, q);
    assert mount + (rel + q) == mount + rel + q;
    if rel != "" {
      PathStarts(rel);
    }
    MountFinds(reg, username, s, rel);
    if IsClean(s.path) {
      MountStaysClean(username, s.path, rel);
    }
  }

  /**
    * The same for the modes in which the service owns the root: the path is all that is
    * mapped.  When only a query is left, the browser stays on its current path.
    */
  lemma RootRedirectClosure(s: Service, loc: string, url: Absolute, p: string, q: string, current: string)
    requires Redirected(s, loc, url, p, q) && IsPath(current)
    ensures var rel := Landing(BackendOf(s), p, q);
            && RewriteLocation(loc, url, s.backendPath, AtRoot) == Some(rel + q)
            && (JoinBackendPath(s.backendPath, if rel == "" then current else rel) == p <==>
                  Kept(BackendOf(s), p) && (rel == "" ==> current == "/"))
  {
    hide *;
    RewriteIs(s, loc, url, AtRoot, p, q);
    ReturnsIffKept(s, loc, url, p, q);
    OrSlashKeeps(Landing(BackendOf(s), p, q));
    if Landing(BackendOf(s), p, q) == "" {
      QueryOnly(s, loc, url, p, q, current);
    }
  }

  lemma OrSlashKeeps(p: string)
    ensures p != "" ==> OrSlash(p) == p
  {
  }

  lemma LandingEmpty(bp: string, p: string, q: string)
    requires bp != "" && bp[0] == '/' && p != "" && Landing(bp, p, q) == ""
    ensures bp != "/" && p == Root(bp) && !FileLike(bp)
    ensures Unslashed(p) == p ==> Kept(bp, p)
  {
    hide Root, FileLike, Unslashed;
  }

  /** Only the directory of a backend path with a final slash leaves just a query. */
  lemma QueryOnly(s: Service, loc: string, url: Absolute, p: string, q: string, current: string)
    requires Redirected(s, loc, url, p, q) && Landing(BackendOf(s), p, q) == "" && IsPath(current)
    ensures Kept(BackendOf(s), p)
    ensures JoinBackendPath(s.backendPath, current) == p <==> current == "/"
  {
    hide *;
    var bp := BackendOf(s);
    RedirectedParts(s, loc, url, p, q);
    BackendIsUsed(s, current);
    PathStarts(p);
    LandingEmpty(bp, p, q);
    PlainParts(bp);
    CleanIsPath(Root(bp));
    JoinIs(bp, current);
    PathCases(current);
    assert |Root(bp) + Unslashed(current)| > |Root(bp)|;
  }

  lemma UserMountIsClean(username: string)
    requires IsValidUsername(username)
    ensures IsClean("/proxy/" + username) && "/proxy/" + username != "/"
    ensures "/proxy/" + username == PathOf(["proxy", username]) && Elements("/proxy/" + username) == ["proxy", username]
  {
    var elements := ["proxy", username];
    assert username[0] in username && forall c :: c in username ==> c != '/' && c != '.';
    PathOfIsClean(elements);
    PathOfOne("proxy");
    PathOfSnoc(["proxy"], username);
    assert ["proxy"] + [username] == elements;
    assert ['/'] + "proxy" + ['/'] + username == "/proxy/" + username;
  }

  /** A path below a clean mount is a path. */
  lemma BelowMountIsPath(mount: string, rel: string)
    requires IsClean(mount) && mount != "/" && IsPath(rel)
    ensures IsPath(mount + rel)
  {
    PathCases(rel);
    SlashedIsPath(mount);
    hide IsClean, IsPath, Unslashed;
    if rel != "/" {
      JoinedElements(mount, Unslashed(rel));
      CleanIsPath(mount + Unslashed(rel));
      SlashedIsPath(mount + Unslashed(rel));
      assert mount + (Unslashed(rel) + "/") == mount + Unslashed(rel) + "/";
    }
  }

  lemma MountStaysClean(username: string, sp: string, rel: string)
    requires IsValidUsername(username) && IsClean(sp) && sp != "/" && (rel == "" || IsPath(rel))
    ensures CleanPath(Mount(username, sp) + rel) == Mount(username, sp) + rel
  {
    UserMountIsClean(username);
    JoinedElements("/proxy/" + username, sp);
    var mount := Mount(username, sp);
    CleanIsPath(mount);
    if rel == "" {
      assert mount + rel == mount;
    } else {
      BelowMountIsPath(mount, rel);
    }
    hide IsClean, IsPath, CleanPath, IsValidUsername;
    CleanPathFixes(mount + rel);
  }

  /** What the mux makes of a doubled slash behind a mount. */
  lemma DoubledSlashIsCleaned(mount: string, rel: string)
    requires IsClean(mount) && mount != "/" && (rel == "" || IsPath(rel))
    ensures CleanPath(mount + "/" + rel) == mount + OrSlash(rel)
  {
    hide Clean, IsClean, IsPath, Unslashed;
    SlashedIsPath(mount);
    if rel == "" {
      CleanPathFixes(mount + "/");
      assert mount + "/" + rel == mount + "/";
    } else {
      PathCases(rel);
      CleanIsPath(mount);
      JoinPaths(mount, rel);
      var p := mount + "/" + rel;
      assert p == mount + ['/'] + rel && p[|p| - 1] == rel[|rel| - 1];
      SlashedEnds(rel);
    }
  }

  lemma SlashedEnds(p: string)
    requires IsPath(p)
    ensures p != "" && (Unslashed(p) == p <==> p == "/" || p[|p| - 1] != '/')
  {
    PathCases(p);
    hide IsClean;
  }

  /**
    * Redirect closure for a service at "/": its prefix ends in a slash, so the rewritten path
    * has two in a row; the mux sends the browser on to the path with one, and the rest is as
    * for any other service.
    */
  lemma RootServiceClosure(reg: Registry, username: string, s: Service, loc: string, url: Absolute, p: string, q: string)
    requires username in reg && IsValidUsername(username) && s in reg[username].services && s.path == "/"
    requires Routable(reg[username].services) && Redirected(s, loc, url, p, q)
    ensures var rel, prefix := Landing(BackendOf(s), p, q), "/proxy/" + username + s.path;
            && RewriteLocation(loc, url, s.backendPath, Prefixed(prefix)) == Some(prefix + rel + q)
            && CleanPath(prefix + rel) == Mount(username, s.path) + OrSlash(rel)
            && (Found(reg, Mount(username, s.path) + OrSlash(rel)) == Some(Match(username, s, OrSlash(rel), false)) <==>
                  Unnested(reg[username].services, s, OrSlash(rel)))
            && (JoinBackendPath(s.backendPath, OrSlash(rel)) == p <==> Kept(BackendOf(s), p))
  {
    hide *;
    var rel, prefix := Landing(BackendOf(s), p, q), "/proxy/" + username + s.path;
    RewriteIs(s, loc, url, Prefixed(prefix), p, q);
    ReturnsIffKept(s, loc, url, p, q);
    assert prefix + (rel + q) == prefix + rel + q;
    UserMountIsClean(username);
    DoubledSlashIsCleaned("/proxy/" + username, rel);
    PathStarts(OrSlash(rel));
    RootMountFinds(reg, username, s, OrSlash(rel));
  }

  lemma RootMountFinds(reg: Registry, username: string, s: Service, rel: string)
    requires username in reg && IsValidUsername(username) && s in reg[username].services && s.path == "/"
    requires Routable(reg[username].services) && rel != "" && rel[0] == '/'
    ensures Mount(username, s.path) + rel == "/proxy/" + username + rel
    ensures Found(reg, Mount(username, s.path) + rel) == Some(Match(username, s, rel, false)) <==>
            Unnested(reg[username].services, s, rel)
  {
    assert Covers(s.path, rel) && Routing.Canonical(username, s, rel) == Match(username, s, rel, false);
    assert Mount(username, s.path) == "/proxy/" + username;
    hide Found, Covers, IsValidUsername, Routing.Canonical, Mount;
    MountLeadsBack(reg, username, s, rel);
  }

  /**
    * A final slash does not survive a backend path.  When the backend answers a request for
    * the directory `c` by redirecting to `c/`, following the rewritten redirect asks for `c`
    * once more: an endless redirect.
    */
  lemma DirectoryRedirectLoops(s: Service, loc: string, url: Absolute, prefix: string, c: string)
    requires IsClean(c) && c != "/" && Redirected(s, loc, url, c + "/", "")
    requires BackendOf(s) != "/" && Kept(BackendOf(s), c)
    ensures var rel := Landing(BackendOf(s), c + "/", "");
            && RewriteLocation(loc, url, s.backendPath, Prefixed(prefix)) == Some(prefix + rel)
            && JoinBackendPath(s.backendPath, OrSlash(rel)) == c
  {
    var bp, p := BackendOf(s), c + "/";
    RewriteIs(s, loc, url, Prefixed(prefix), p, "");
    ReturnsIffKept(s, loc, url, p, "");
    var rel := Landing(bp, p, "");
    assert rel + "" == rel;
    BackendIsUsed(s, OrSlash(rel));
    JoinIs(bp, OrSlash(rel));
    SlashedIsPath(c);
    PlainParts(bp);
    CleanIsPath(Root(bp));
    hide JoinBackendPath, IsPath, BackendOf, IsClean, FileLike, Dir, TrimSpace, TrimSlashes, Unslashed, Rooted, Root, Names,
      PlainBackend, RewriteLocation;
    if p != bp && Root(bp) != "/" {
      assert Root(bp) + "/" <= p;
      RestIsPath(Root(bp), p);
    }
  }

  lemma OneElementPath(e: string)
    requires IsElement(e)
    ensures IsClean("/" + e) && Elements("/" + e) == [e] && "/" + e != "/"
  {
    SplitWhole(e, '/');
    assert ("/" + e)[1..] == e;
  }

  lemma AppIsPlain()
    ensures PlainBackend("/app") && !FileLike("/app") && Root("/app") == "/app"
  {
    AppElements();
    CleanIsPath("/app");
    AppIsNoFile();
    hide IsPath, FileLike, Unslashed, IsClean;
  }

  lemma AppIsNoFile()
    ensures !FileLike("/app")
  {
    OneElementPath("app");
    assert "/" + "app" == "/app";
    CleanDirBase("/app");
    hide Base, Dir, IsClean, PathOf, Elements;
    assert Base("/app") == "app";
  }

  lemma AppDir()
    ensures IsClean("/app/dir") && IsPath("/app/dir/") && Unslashed("/app/dir") == "/app/dir" != "/"
  {
    hide *;
    AppElements();
    JoinedElements("/app", "/dir");
    assert "/app" + "/dir" == "/app/dir" && "/app/dir" + "/" == "/app/dir/";
    CleanIsPath("/app/dir");
    SlashedIsPath("/app/dir");
  }

  lemma AppElements()
    ensures IsClean("/app") && IsClean("/dir")
  {
    assert IsElement("app") && IsElement("dir");
    OneElementPath("app");
    OneElementPath("dir");
    assert "/" + "app" == "/app" && "/" + "dir" == "/dir";
    hide IsClean;
  }

  lemma LandsInApp()
    requires Root("/app") == "/app" && !FileLike("/app") && Unslashed("/app/dir") == "/app/dir"
    ensures Landing("/app", "/app/dir/", "") == "/dir/" && Kept("/app", "/app/dir")
  {
    hide Root, FileLike, Unslashed;
    assert "/app" + "/" == "/app/dir"[..5] && "/app" + "/" == "/app/dir/"[..5];
    assert "/app/dir/"[4..] == "/dir/";
  }

  lemma NamesAppDir(s: Service)
    requires s.backendPath == "/app" && PlainBackend("/app") && IsPath("/app/dir/")
    ensures BackendOf(s) == "/app" && Redirected(s, "/app/dir/", Unparsable, "/app/dir/", "")
  {
    TrimSpaceFixes("/app");
    hide IsPath, PlainBackend, TrimSpace;
    assert "/app/dir/" + "" == "/app/dir/" && "/app/dir/"[1] == 'a';
  }

  /** For example, behind the backend path /app. */
  lemma AppDirectoryLoops(s: Service)
    requires s.backendPath == "/app"
    ensures RewriteLocation("/app/dir/", Unparsable, s.backendPath, Prefixed("/proxy/u/svc")) == Some("/proxy/u/svc/dir/")
    ensures JoinBackendPath(s.backendPath, "/dir/") == "/app/dir"
  {
    hide *;
    AppIsPlain();
    AppDir();
    LandsInApp();
    NamesAppDir(s);
    assert "/app/dir" + "/" == "/app/dir/" && "/proxy/u/svc" + "/dir/" == "/proxy/u/svc/dir/";
    OrSlashKeeps("/dir/");
    DirectoryRedirectLoops(s, "/app/dir/", Unparsable, "/proxy/u/svc", "/app/dir");
  }

  // ---------------------------------------------------------------- all other redirects

  lemma RemainingStarts(sp: string, p: string)
    requires Covers(sp, p) && p != "" && p[0] == '/'
    ensures Remaining(sp, p) != "" && Remaining(sp, p)[0] == '/'
  {
  }

  /** A path the mux lets through leaves a path for the backend. */
  lemma RemainingIsPath(reg: Registry, path: string)
    requires CleanPath(path) == path && Found(reg, path).Some?
    requires Found(reg, path).value.service.path != "" && Found(reg, path).value.service.path[0] == '/'
    ensures IsPath(Found(reg, path).value.remaining)
  {
    hide *;
    var m := Found(reg, path).value;
    var mount := Mount(m.username, m.service.path);
    CleanPathIsPath(path);
    FoundStarts(reg, path);
    NothingIsLost(reg, path);
    MountStarts(m.username, m.service.path);
    SlashIsPath();
    if path == mount {
      assert (mount + m.remaining)[|mount|..] == (path + "/")[|mount|..];
    } else {
      assert (mount + m.remaining)[|mount|..] == path[|mount|..];
      assert path[..|mount| + 1] == mount + "/";
      RestIsPath(mount, path);
    }
  }

  lemma MountStarts(username: string, sp: string)
    ensures var mount := Mount(username, sp); mount != "" && mount[0] == '/' && mount != "/"
  {
  }

  lemma FoundStarts(reg: Registry, path: string)
    requires Found(reg, path).Some?
    ensures var rest := Found(reg, path).value.remaining; rest != "" && rest[0] == '/'
  {
    AfterUserIsRooted(path);
    BestCoveringIs(UsernameFromProxyPath(path), ServicesOf(reg, UsernameFromProxyPath(path)), AfterUser(path));
    var m := Found(reg, path).value;
    RemainingStarts(m.service.path, AfterUser(path));
    hide Found, UsernameFromProxyPath, AfterUser, BestCovering, Remaining, Covers;
  }

  /**
    * Whatever Location a browser follows, a backend is only ever asked for paths without
    * empty and dotted elements: a redirect to any other path does not come back as it was.
    */
  lemma OnlyPathsAreAskedFor(reg: Registry, path: string)
    requires CleanPath(path) == path && Found(reg, path).Some?
    requires Found(reg, path).value.service.path != "" && Found(reg, path).value.service.path[0] == '/'
    requires PlainBackend(BackendOf(Found(reg, path).value.service))
    ensures IsPath(JoinBackendPath(Found(reg, path).value.service.backendPath, Found(reg, path).value.remaining))
  {
    hide *;
    var m := Found(reg, path).value;
    var bp := BackendOf(m.service);
    RemainingIsPath(reg, path);
    BackendIsUsed(m.service, m.remaining);
    JoinIs(bp, m.remaining);
    PathCases(m.remaining);
    if bp != "/" {
      PlainParts(bp);
      PlainIsPath(bp);
      PathCases(bp);
      CleanIsPath(Unslashed(bp));
      CleanIsPath(Unslashed(m.remaining));
      if m.remaining != "/" && Root(bp) != "/" {
        JoinedElements(Root(bp), Unslashed(m.remaining));
        CleanIsPath(Root(bp) + Unslashed(m.remaining));
      }
    }
  }

  // ---------------------------------------------------------------- legacy prefixes

  predicate LegacyUnnested(services: seq<Service>, s: Service, path: string) {
    forall t :: t in services && LegacyCovers(t.path, path) ==> |t.path| <= |s.path|
  }

  lemma LegacyLengthDecides(services: seq<Service>, path: string)
    ensures LengthDecides(services, LegacyCoversPath(path))
  {
    forall a, b | a in services && b in services && LegacyCovers(a.path, path) && LegacyCovers(b.path, path)
                  && |a.path| == |b.path|
      ensures a.path == b.path
    {
      assert path[6..6 + |a.path|] == a.path && path[6..6 + |b.path|] == b.path;
    }
  }

  lemma LegacyFinds(reg: Registry, username: string, s: Service, rel: string)
    requires username in reg && s in reg[username].services && Routable(reg[username].services)
    requires rel == "" || rel[0] == '/'
    ensures var path := "/proxy" + s.path + rel;
            FoundLegacy(reg, path, username) == Some(Match(username, s, OrSlash(rel), true)) <==>
            LegacyUnnested(reg[username].services, s, path)
  {
    var services, path := reg[username].services, "/proxy" + s.path + rel;
    assert path[6 + |s.path|..] == rel && path[..6 + |s.path|] == "/proxy" + s.path;
    assert s.path[0] == '/';
    assert path[..7] == "/proxy/";
    assert LegacyCovers(s.path, path) by {
      assert rel != "" ==> path[..7 + |s.path|] == "/proxy" + s.path + "/";
      assert rel == "" ==> path == "/proxy" + s.path;
    }
    BestIsLongest(services, LegacyCoversPath(path));
    LegacyLengthDecides(services, path);
    hide Best, LegacyCovers;
  }

  /**
    * Redirect closure under the legacy prefix: for a service not at "/", the rewritten path is
    * a legacy path of the same service if and only if no service with a longer path claims it.
    */
  lemma LegacyRedirectClosure(reg: Registry, username: string, s: Service, loc: string, url: Absolute, p: string, q: string)
    requires username in reg && s in reg[username].services && s.path != "/"
    requires Routable(reg[username].services) && Redirected(s, loc, url, p, q)
    ensures var rel, prefix := Landing(BackendOf(s), p, q), "/proxy" + s.path;
            && RewriteLocation(loc, url, s.backendPath, Prefixed(prefix)) == Some(prefix + rel + q)
            && (FoundLegacy(reg, prefix + rel, username) == Some(Match(username, s, OrSlash(rel), true)) <==>
                  LegacyUnnested(reg[username].services, s, prefix + rel))
            && (JoinBackendPath(s.backendPath, OrSlash(rel)) == p <==> Kept(BackendOf(s), p))
  {
    hide *;
    var rel, prefix := Landing(BackendOf(s), p, q), "/proxy" + s.path;
    RewriteIs(s, loc, url, Prefixed(prefix), p, q);
    ReturnsIffKept(s, loc, url, p, q);
    assert prefix + (rel + q) == prefix + rel + q;
    if rel != "" {
      PathStarts(rel);
    }
    LegacyFinds(reg, username, s, rel);
  }

  lemma LandingHasNoQuery(s: Service, loc: string, url: Absolute, p: string, q: string)
    requires Redirected(s, loc, url, p, q)
    ensures '?' !in Landing(BackendOf(s), p, q)
  {
    hide BackendOf, PlainBackend, IsPath, Root, FileLike, Names, IsQuery;
  }

  /** Nothing but the legacy prefix itself is a legacy path of the service at "/". */
  lemma LegacyRootCovers(rel: string)
    requires rel != "" && rel[0] == '/' && !("//" <= rel) && '?' !in rel
    ensures LegacyCovers("/", "/proxy" + rel) <==> rel == "/"
  {
    var path := "/proxy" + rel;
    assert path[6..] == rel && path[6] == '/';
    assert |rel| > 1 ==> path[7] == rel[1] && rel[1] in rel && rel[1] != '/';
    assert ("/proxy/" + "/")[7] == '/' && ("/proxy/" + "?")[7] == '?';
    assert path == "/proxy/" ==> path[6..] == "/";
  }

  lemma OnlyRootCoversPrefix(t: Service)
    requires t.path != "" && t.path[0] == '/'
    ensures LegacyCovers(t.path, "/proxy/") ==> t.path == "/"
  {
    assert "/proxy" + t.path == "/proxy/" ==> |t.path| == 1;
  }

  lemma LegacyRootFinds(reg: Registry, username: string, s: Service, rel: string)
    requires username in reg && s in reg[username].services && s.path == "/"
    requires Routable(reg[username].services) && IsPath(rel) && '?' !in rel
    ensures FoundLegacy(reg, "/proxy" + rel, username) == Some(Match(username, s, rel, true)) <==> rel == "/"
  {
    PathCases(rel);
    LegacyRootCovers(rel);
    FoundLegacyMeans(reg, "/proxy" + rel, username);
    hide IsClean, IsPath, LegacyCovers, Unslashed, FoundLegacy;
    if rel == "/" {
      forall t | t in reg[username].services && LegacyCovers(t.path, "/proxy" + rel)
        ensures t.path == "/"
      {
        OnlyRootCoversPrefix(t);
      }
      LegacyFinds(reg, username, s, "");
      assert "/proxy" + s.path + "" == "/proxy" + rel;
    }
  }

  /**
    * A service at "/" loses its redirects under the legacy prefix: the mux cleans the doubled
    * slash, and what is left is a legacy path of the service only if it is the prefix itself.
    */
  lemma LegacyRootIsLost(reg: Registry, username: string, s: Service, loc: string, url: Absolute, p: string, q: string)
    requires username in reg && s in reg[username].services && s.path == "/"
    requires Routable(reg[username].services) && Redirected(s, loc, url, p, q)
    ensures var landing, prefix := Landing(BackendOf(s), p, q), "/proxy" + s.path;
            && RewriteLocation(loc, url, s.backendPath, Prefixed(prefix)) == Some(prefix + landing + q)
            && CleanPath(prefix + landing) == "/proxy" + OrSlash(landing)
            && (FoundLegacy(reg, "/proxy" + OrSlash(landing), username) == Some(Match(username, s, OrSlash(landing), true)) <==>
                  OrSlash(landing) == "/")
  {
    hide *;
    var landing, prefix := Landing(BackendOf(s), p, q), "/proxy" + s.path;
    RewriteIs(s, loc, url, Prefixed(prefix), p, q);
    ReturnsIffKept(s, loc, url, p, q);
    LandingHasNoQuery(s, loc, url, p, q);
    ProxyIsClean();
    assert "/proxy" + "/" == prefix && prefix + (landing + q) == prefix + landing + q;
    DoubledSlashIsCleaned("/proxy", landing);
    OrSlashHasNoQuery(landing);
    LegacyRootFinds(reg, username, s, OrSlash(landing));
  }

  lemma OrSlashHasNoQuery(p: string)
    requires '?' !in p
    ensures '?' !in OrSlash(p)
  {
  }

  lemma ProxyIsClean()
    ensures IsClean("/proxy")
  {
    OneElementPath("proxy");
    assert "/" + "proxy" == "/proxy";
    hide IsClean;
  }

  // ---------------------------------------------------------------- relative links

  /** The directory relative links resolve against (without URL escaping). */
  function BaseForPath(prefix: string, remaining: string): string
    requires prefix != "" ==> prefix[0] == '/'
  {
    BaseOfTail(prefix, if remaining != "" && remaining[0] == '/' then remaining[1..] else remaining)
  }

  function BaseOfTail(prefix: string, tail: string): string
    requires prefix != "" ==> prefix[0] == '/'
  {
    var full := TrimSuffix(prefix, "/") + "/" + tail;
    var dir := if HasSuffix(full, "/") then full else Dir(full);
    TrimSuffix(dir, "/") + "/"
  }

  /** The directory of a document: itself if its path ends in a slash. */
  function Directory(p: string): string
    requires p != "" && p[0] == '/'
  {
    if p[|p| - 1] == '/' then p else if Dir(p) == "/" then "/" else Dir(p) + "/"
  }

  lemma BaseOfSlashed(mount: string, remaining: string)
    requires mount != "" && mount[0] == '/' && mount[|mount| - 1] != '/'
    requires remaining != "" && remaining[0] == '/' && remaining[|remaining| - 1] == '/'
    ensures BaseForPath(mount, remaining) == mount + remaining
  {
    NoSlashSuffix(mount);
    var full := mount + remaining;
    assert mount + "/" + remaining[1..] == full && full[|full| - 1] == '/';
    assert full == full[..|full| - 1] + "/";
    SlashSuffix(full[..|full| - 1]);
    hide TrimSuffix, HasSuffix, Dir;
  }

  lemma BaseOfUnslashed(mount: string, remaining: string)
    requires mount != "" && mount[0] == '/' && mount[|mount| - 1] != '/'
    requires remaining != "" && remaining[0] == '/' && remaining[|remaining| - 1] != '/'
    ensures BaseForPath(mount, remaining) == TrimSuffix(Dir(mount + remaining), "/") + "/"
  {
    NoSlashSuffix(mount);
    assert mount + "/" + remaining[1..] == mount + remaining;
    NoSlashSuffix(mount + remaining);
    hide TrimSuffix, HasSuffix, Dir;
  }

  /** Relative links resolve below the mount as they would below the root. */
  lemma BaseIsDirectory(mount: string, remaining: string)
    requires IsClean(mount) && mount != "/" && IsPath(remaining)
    ensures remaining != "" && remaining[0] == '/' && BaseForPath(mount, remaining) == mount + Directory(remaining)
  {
    hide *;
    PathStarts(remaining);
    CleanEnds(mount);
    if remaining[|remaining| - 1] == '/' {
      BaseOfSlashed(mount, remaining);
    } else {
      UnslashedIsClean(remaining);
      JoinedDir(mount, remaining);
      BaseOfUnslashed(mount, remaining);
      NoSlashSuffix(Dir(mount + remaining));
      assert mount + (Dir(remaining) + "/") == mount + Dir(remaining) + "/";
    }
    DirectoryIs(remaining);
  }

  /** The first slash of the path makes no difference. */
  lemma BaseOfUnrooted(prefix: string, remaining: string)
    requires (prefix != "" ==> prefix[0] == '/') && (remaining == "" || remaining[0] != '/')
    ensures BaseForPath(prefix, remaining) == BaseForPath(prefix, "/" + remaining)
  {
    hide BaseOfTail;
    assert ("/" + remaining)[1..] == remaining;
  }

  lemma CleanEnds(p: string)
    requires IsClean(p) && p != "/"
    ensures p != "" && p[0] == '/' && p[|p| - 1] != '/'
  {
    CleanDirBase(p);
    CleanStarts(p, p);
    hide IsClean, Dir, Base, Elements, PathOf;
  }

  lemma UnslashedIsClean(p: string)
    requires IsPath(p) && p != "" && p[|p| - 1] != '/'
    ensures IsClean(p) && p != "/"
  {
    PathCases(p);
    SlashedEnds(p);
    hide IsClean, Unslashed;
  }

  lemma DirectoryIs(p: string)
    requires p != "" && p[0] == '/'
    ensures Directory(p) == if p[|p| - 1] == '/' then p else if Dir(p) == "/" then "/" else Dir(p) + "/"
  {
    hide Dir;
  }

  lemma NoSlashSuffix(p: string)
    requires p != "" && p[|p| - 1] != '/'
    ensures !HasSuffix(p, "/") && TrimSuffix(p, "/") == p
  {
    assert p[|p| - 1..] == [p[|p| - 1]];
  }

  lemma SlashSuffix(p: string)
    ensures HasSuffix(p + "/", "/") && TrimSuffix(p + "/", "/") == p
  {
    assert (p + "/")[|p|..] == "/" && (p + "/")[..|p|] == p;
  }

  lemma JoinedElements(a: string, b: string)
    requires IsClean(a) && a != "/" && IsClean(b) && b != "/"
    ensures IsClean(a + b) && a + b != "/" && Elements(a + b) == Elements(a) + Elements(b)
    ensures Elements(a) != [] && Elements(b) != [] && a == PathOf(Elements(a))
  {
    CleanShape(a);
    CleanShape(b);
    hide Split, PathOf, Elements;
    PathOfConcat(Elements(a), Elements(b));
    PathOfIsClean(Elements(a) + Elements(b));
  }

  /** A clean path is determined by its elements. */
  lemma SameElements(a: string, b: string)
    requires IsClean(a) && IsClean(b) && Elements(a) == Elements(b)
    ensures a == b
  {
    CleanShape(a);
    CleanShape(b);
  }

  /** The directory of a path below a mount. */
  lemma JoinedDir(mount: string, p: string)
    requires IsClean(mount) && mount != "/" && IsClean(p) && p != "/"
    ensures IsClean(mount + p) && mount + p != "/" && (mount + p)[|mount + p| - 1] != '/'
    ensures Dir(mount + p) == (if Dir(p) == "/" then mount else mount + Dir(p)) && Dir(mount + p) != "/"
    ensures Dir(mount + p)[|Dir(mount + p)| - 1] != '/'
  {
    hide Split, PathOf, Dir, Base, Elements, AllElements, Clean, Resolve, LastIndex;
    JoinedElements(mount, p);
    CleanDirBase(p);
    CleanDirBase(mount + p);
    var a, b := Elements(mount), Elements(p);
    var up := b[..|b| - 1];
    assert (a + b)[..|a + b| - 1] == a + up;
    if up == [] {
      assert a + up == a && |b| == 1;
      SameElements(Dir(mount + p), mount);
      CleanDirBase(mount);
    } else {
      DirNotRoot(p);
      JoinedElements(mount, Dir(p));
      SameElements(Dir(mount + p), mount + Dir(p));
      CleanDirBase(mount + Dir(p));
    }
  }

  lemma DirNotRoot(p: string)
    requires IsClean(p) && p != "/" && |Elements(p)| > 1
    ensures Dir(p) != "/"
  {
    CleanDirBase(p);
    CleanShape(Dir(p));
    hide Split, PathOf, Dir, Base;
  }
}
