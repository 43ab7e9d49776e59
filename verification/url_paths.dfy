/**
  * Rooted URL paths as the path package treats them: cleaning, joining, and splitting into
  * directory and last element.
  */
module UrlPaths {
  import opened Text

  // ---------------------------------------------------------------- cleaning

  /** The elements of a cleaned path: empty and "." elements dropped, ".." taking one back. */
  function Resolve(parts: seq<string>): seq<string> {
    if parts == [] then []
    else
      var before, last := Resolve(parts[..|parts| - 1]), parts[|parts| - 1];
      if last == "" || last == "." then before
      else if last == ".." then (if before == [] then [] else before[..|before| - 1])
      else before + [last]
  }

  function PathOf(elements: seq<string>): (p: string)
    ensures elements == [] <==> p == ""
    ensures p != "" ==> p[0] == '/'
  {
    if elements == [] then "" else PathOf(elements[..|elements| - 1]) + ['/'] + elements[|elements| - 1]
  }

  /** path.Clean on a rooted path. */
  function Clean(p: string): (r: string)
    requires p != "" && p[0] == '/'
    ensures r != "" && r[0] == '/'
  {
    var elements := Resolve(Split(p, '/'));
    if elements == [] then "/" else PathOf(elements)
  }

  predicate IsElement(s: string) {
    s != "" && s != "." && s != ".." && '/' !in s
  }

  predicate AllElements(elements: seq<string>) {
    forall e :: e in elements ==> IsElement(e)
  }

  function Elements(p: string): seq<string>
    requires p != "" && p[0] == '/'
  {
    if p == "/" then [] else Split(p[1..], '/')
  }

  /** A rooted path without empty, "." or ".." elements and without a final slash. */
  predicate IsClean(p: string) {
    p != "" && p[0] == '/' && AllElements(Elements(p))
  }

  lemma {:induction false} ResolveElements(elements: seq<string>, more: seq<string>)
    requires AllElements(more)
    ensures Resolve(elements + more) == Resolve(elements) + more
  {
    if more == [] {
      assert elements + more == elements;
    } else {
      var init, last := more[..|more| - 1], more[|more| - 1];
      assert last in more && forall e :: e in init ==> e in more;
      ResolveElements(elements, init);
      assert (elements + more)[..|elements + more| - 1] == elements + init;
      assert Resolve(elements) + init + [last] == Resolve(elements) + more;
    }
  }

  lemma {:induction false} PathOfConcat(a: seq<string>, b: seq<string>)
    ensures PathOf(a + b) == PathOf(a) + PathOf(b)
  {
    if b == [] {
      assert a + b == a;
    } else {
      var init, last := b[..|b| - 1], b[|b| - 1];
      PathOfConcat(a, init);
      assert (a + b)[..|a + b| - 1] == a + init;
      assert PathOf(a) + (PathOf(init) + ['/'] + last) == PathOf(a) + PathOf(init) + ['/'] + last;
    }
  }

  lemma PathOfSnoc(elements: seq<string>, e: string)
    ensures PathOf(elements + [e]) == PathOf(elements) + ['/'] + e
  {
    assert (elements + [e])[..|elements|] == elements;
  }

  lemma {:induction false} SplitPathOf(elements: seq<string>)
    requires forall e :: e in elements ==> '/' !in e
    ensures Split(PathOf(elements), '/') == [""] + elements
  {
    if elements == [] {
      SplitStart("", '/');
    } else {
      var init, last := elements[..|elements| - 1], elements[|elements| - 1];
      assert last in elements && forall e :: e in init ==> e in elements;
      SplitPathOf(init);
      SplitConcat(PathOf(init), last, '/');
      SplitWhole(last, '/');
      assert [""] + init + [last] == [""] + elements;
    }
  }

  lemma PathOfOne(e: string)
    ensures PathOf([e]) == ['/'] + e
  {
    assert [e][..0] == [];
  }

  lemma {:induction false} PathOfSplit(s: string)
    ensures PathOf(Split(s, '/')) == ['/'] + s
    decreases |s|
  {
    hide Split, PathOf;
    var k := Find(s, '/');
    if k == |s| {
      SplitWhole(s, '/');
      PathOfOne(s);
    } else {
      var a, b := s[..k], s[k + 1..];
      assert s == a + ['/'] + b;
      SplitConcat(a, b, '/');
      PathOfSplit(a);
      PathOfSplit(b);
      PathOfConcat(Split(a, '/'), Split(b, '/'));
      assert (['/'] + a) + (['/'] + b) == ['/'] + (a + ['/'] + b);
    }
  }

  /** A clean path other than "/" is the path of its elements. */
  lemma CleanShape(p: string)
    requires IsClean(p)
    ensures Elements(p) == [] <==> p == "/"
    ensures p != "/" ==> p == PathOf(Elements(p))
  {
    if p != "/" {
      PathOfSplit(p[1..]);
    }
  }

  lemma PathOfIsClean(elements: seq<string>)
    requires AllElements(elements) && elements != []
    ensures IsClean(PathOf(elements)) && Elements(PathOf(elements)) == elements && PathOf(elements) != "/"
  {
    var init, last := elements[..|elements| - 1], elements[|elements| - 1];
    SplitPathOf(elements);
    var p := PathOf(elements);
    assert last in elements;
    PathOfStart(elements);
    assert p == ['/'] + p[1..];
    SplitStart(p[1..], '/');
    hide Split, PathOf;
    assert ([""] + elements)[1..] == elements;
    assert ([""] + Split(p[1..], '/'))[1..] == Split(p[1..], '/');
  }

  lemma {:induction false} PathOfStart(elements: seq<string>)
    requires AllElements(elements) && elements != []
    ensures |PathOf(elements)| > 1 && PathOf(elements)[0] == '/'
  {
    assert elements[|elements| - 1] in elements;
    if |elements| > 1 {
      assert forall e :: e in elements[..|elements| - 1] ==> e in elements;
      PathOfStart(elements[..|elements| - 1]);
    }
  }

  lemma {:induction false} ResolvedElements(parts: seq<string>)
    requires forall e :: e in parts ==> '/' !in e
    ensures AllElements(Resolve(parts))
  {
    if parts != [] {
      var init, last := parts[..|parts| - 1], parts[|parts| - 1];
      assert last in parts && forall e :: e in init ==> e in parts;
      ResolvedElements(init);
    }
  }

  /** Cleaning makes a path clean. */
  lemma CleanIsClean(p: string)
    requires p != "" && p[0] == '/'
    ensures IsClean(Clean(p))
  {
    ResolvedElements(Split(p, '/'));
    if Resolve(Split(p, '/')) != [] {
      PathOfIsClean(Resolve(Split(p, '/')));
    }
  }

  lemma SplitRooted(p: string)
    requires p != "" && p[0] == '/'
    ensures Split(p, '/') == [""] + Split(p[1..], '/')
  {
    assert p == ['/'] + p[1..];
    SplitStart(p[1..], '/');
  }

  lemma ResolveEmpty()
    ensures Resolve([]) == [] && Resolve([""]) == [] && Resolve(["", ""]) == []
  {
    assert [""][..0] == [] && ["", ""][..1] == [""];
  }

  /** What a clean path splits into. */
  function Parts(elements: seq<string>): seq<string> {
    if elements == [] then ["", ""] else [""] + elements
  }

  lemma SplitClean(p: string)
    requires IsClean(p)
    ensures Split(p, '/') == Parts(Elements(p))
  {
    SplitRooted(p);
    SplitStart("", '/');
    CleanShape(p);
    hide PathOf;
  }

  lemma ResolveParts(elements: seq<string>)
    requires AllElements(elements)
    ensures Resolve(Parts(elements)) == elements
  {
    ResolveEmpty();
    ResolveElements([""], elements);
    hide Resolve;
    assert [] + elements == elements;
  }

  /** And leaves a clean path alone. */
  lemma CleanFixes(p: string)
    requires IsClean(p)
    ensures Clean(p) == p
  {
    CleanShape(p);
    SplitClean(p);
    ResolveParts(Elements(p));
    hide Split, Resolve, PathOf, Parts;
  }

  lemma CleanNotDoubled(p: string)
    requires IsClean(p)
    ensures !("//" <= p)
  {
    DoubledHasEmpty(p);
  }

  lemma DoubledHasEmpty(p: string)
    requires p != "" && p[0] == '/'
    ensures "//" <= p ==> "" in Elements(p)
  {
    if "//" <= p {
      assert p[1..] == ['/'] + p[2..];
      SplitStart(p[2..], '/');
      assert Elements(p)[0] == "";
    }
  }

  /** The mux redirects to the cleaned path, keeping a final slash. */
  function CleanPath(p: string): string {
    if p == "" then "/"
    else
      var rooted := if p[0] == '/' then p else ['/'] + p;
      var cleaned := Clean(rooted);
      if rooted[|rooted| - 1] == '/' && cleaned != "/" then cleaned + "/" else cleaned
  }

  // ---------------------------------------------------------------- joining

  /** path.Join(base, p) of a rooted base and a path to put below it. */
  function JoinPath(base: string, p: string): string
    requires base != "" && base[0] == '/'
  {
    Clean(base + ['/'] + p)
  }

  /** Joining clean paths just puts one behind the other. */
  lemma JoinClean(a: string, b: string)
    requires IsClean(a) && IsClean(b)
    ensures JoinPath(a, b) == if a == "/" then b else if b == "/" then a else a + b
  {
    CleanShape(a);
    CleanShape(b);
    SplitConcat(a, b, '/');
    SplitClean(a);
    SplitClean(b);
    JoinElements(Elements(a), Elements(b));
    PathOfConcat(Elements(a), Elements(b));
    hide Split, PathOf, Resolve, Parts, Elements;
    assert Elements(a) + [] == Elements(a) && [] + Elements(b) == Elements(b);
  }

  lemma JoinElements(a: seq<string>, b: seq<string>)
    requires AllElements(a) && AllElements(b)
    ensures Resolve(Parts(a) + Parts(b)) == a + b
  {
    ResolveEmpty();
    hide Resolve;
    var start := if a == [] then ["", ""] else [""];
    ResolveElements(start, a);
    assert Parts(a) == start + a;
    ResolveSkips(Parts(a));
    ResolveElements(Parts(a) + [""], b);
    assert b != [] ==> Parts(a) + Parts(b) == Parts(a) + [""] + b;
    if b == [] {
      ResolveSkips(Parts(a) + [""]);
      assert Parts(a) + Parts(b) == Parts(a) + [""] + [""];
    }
  }

  lemma ResolveSkips(parts: seq<string>)
    ensures Resolve(parts + [""]) == Resolve(parts)
  {
    assert (parts + [""])[..|parts|] == parts;
  }

  // ---------------------------------------------------------------- directory and last element

  /** path.Base */
  function Base(p: string): string {
    var trimmed := TrimSlashes(p);
    if p == "" then "."
    else if trimmed == "" then "/"
    else trimmed[LastIndex(trimmed, '/') + 1..]
  }

  /** path.Dir of a rooted path. */
  function Dir(p: string): (r: string)
    requires p != "" && p[0] == '/'
    ensures r != "" && r[0] == '/'
  {
    LastSlash(p);
    Clean(p[..LastIndex(p, '/') + 1])
  }

  lemma LastSlash(p: string)
    requires p != "" && p[0] == '/'
    ensures LastIndex(p, '/') >= 0
  {
    LastIndexBounds(p, '/', 0);
  }

  lemma {:induction false} LastIndexBounds(s: string, c: char, k: nat)
    requires k < |s| && s[k] == c
    ensures LastIndex(s, c) >= k
  {
    if s[|s| - 1] != c {
      LastIndexBounds(s[..|s| - 1], c, k);
    }
  }

  lemma BaseOfNothing(p: string)
    ensures p == "" ==> Base(p) == "."
    ensures p != "" && (forall c :: c in p ==> c == '/') ==> Base(p) == "/"
  {
    TrimSlashesResult(p);
    var t := TrimSlashes(p);
    assert t != "" ==> t[|t| - 1] in p;
  }

  /** Directory and last element of a clean path. */
  lemma CleanDirBase(p: string)
    requires IsClean(p) && p != "/"
    ensures var es := Elements(p);
            && es != [] && Base(p) == es[|es| - 1]
            && Dir(p) == (if |es| == 1 then "/" else PathOf(es[..|es| - 1]))
            && IsClean(Dir(p)) && Elements(Dir(p)) == es[..|es| - 1]
            && p[|p| - 1] != '/' && (Dir(p) == "/" || Dir(p) + "/" <= p)
  {
    CleanShape(p);
    var es := Elements(p);
    var init, last := es[..|es| - 1], es[|es| - 1];
    assert last in es && es == init + [last] && forall e :: e in init ==> e in es;
    PathOfSnoc(init, last);
    LastIndexAt(PathOf(init), last, '/');
    assert p == PathOf(init) + ['/'] + last;
    assert p[|PathOf(init)| + 1..] == last && p[..|PathOf(init)| + 1] == PathOf(init) + ['/'];
    assert last[|last| - 1] in last && p[|p| - 1] == last[|last| - 1];
    assert PathOf(init) + "/" <= p;
    hide Split, PathOf, Resolve, LastIndex;
    CleanTrailing(init);
  }

  lemma CleanTrailing(elements: seq<string>)
    requires AllElements(elements)
    ensures var d := PathOf(elements) + ['/'];
            && d != "" && d[0] == '/'
            && Clean(d) == (if elements == [] then "/" else PathOf(elements))
            && IsClean(Clean(d)) && Elements(Clean(d)) == elements
  {
    SplitConcat(PathOf(elements), "", '/');
    SplitPathOf(elements);
    SplitStart("", '/');
    assert PathOf(elements) + ['/'] + "" == PathOf(elements) + ['/'];
    ResolveEmpty();
    ResolveElements([""], elements);
    ResolveSkips([""] + elements);
    assert [] + elements == elements;
    if elements == [] {
      assert PathOf(elements) == "";
    } else {
      PathOfStart(elements);
      PathOfIsClean(elements);
    }
    hide Split, Resolve, PathOf, Elements;
  }

  // ---------------------------------------------------------------- final slashes

  /** The path without its final slash, if it has one besides the first. */
  function Unslashed(p: string): string {
    if |p| > 1 && p[|p| - 1] == '/' then p[..|p| - 1] else p
  }

  /** A clean path, with or without one final slash. */
  predicate IsPath(p: string) {
    IsClean(Unslashed(p)) && (Unslashed(p) != p ==> Unslashed(p) != "/")
  }

  lemma PathCases(p: string)
    requires IsPath(p)
    ensures p != "" && p[0] == '/' && Unslashed(p) != "" && IsClean(Unslashed(p))
    ensures Unslashed(p) != p ==> p == Unslashed(p) + "/" && Unslashed(p) != "/" && p != "/"
    ensures Unslashed(p) == "/" <==> p == "/"
    ensures !("//" <= p)
  {
    CleanNotDoubled(Unslashed(p));
    hide Elements, AllElements;
    assert Unslashed(p) != p ==> p == Unslashed(p) + [p[|p| - 1]];
  }

  lemma CleanIsPath(p: string)
    requires IsClean(p)
    ensures IsPath(p) && Unslashed(p) == p
  {
    if p != "/" {
      CleanDirBase(p);
    }
    hide Elements, AllElements, Dir, Base;
  }

  lemma SlashedIsPath(p: string)
    requires IsClean(p) && p != "/"
    ensures IsPath(p + "/") && Unslashed(p + "/") == p
  {
    hide Elements, AllElements;
    assert (p + "/")[..|p|] == p;
  }

  /** Cleaning drops the final slash and nothing else. */
  lemma CleanUnslashes(p: string)
    requires IsPath(p)
    ensures p != "" && p[0] == '/' && Clean(p) == Unslashed(p)
  {
    PathCases(p);
    var c := Unslashed(p);
    CleanFixes(c);
    CleanShape(c);
    if c != p {
      CleanTrailing(Elements(c));
    }
    hide Split, Resolve, PathOf, Elements;
  }

  /** And the mux leaves such a path alone. */
  lemma CleanPathFixes(p: string)
    requires IsPath(p)
    ensures CleanPath(p) == p
  {
    CleanUnslashes(p);
    PathCases(p);
    hide Clean, Elements, AllElements;
    if Unslashed(p) == p {
      assert p == "/" || p[|p| - 1] != '/';
    }
  }

  lemma SlashIsPath()
    ensures IsPath("/") && Unslashed("/") == "/"
  {
  }

  /** What the mux makes of any path is one. */
  lemma CleanPathIsPath(p: string)
    ensures IsPath(CleanPath(p))
  {
    SlashIsPath();
    if p != "" {
      var rooted := if p[0] == '/' then p else ['/'] + p;
      CleanIsClean(rooted);
      CleanIsPath(Clean(rooted));
      if Clean(rooted) != "/" {
        SlashedIsPath(Clean(rooted));
      }
      hide Clean, IsClean, IsPath, Unslashed;
    }
  }

  lemma {:induction false} ResolveWithout(a: seq<string>, b: seq<string>)
    ensures Resolve(a + [""] + b) == Resolve(a + b)
  {
    if b == [] {
      ResolveSkips(a);
      assert a + [""] + b == a + [""] && a + b == a;
    } else {
      var init, last := b[..|b| - 1], b[|b| - 1];
      ResolveWithout(a, init);
      assert (a + [""] + b)[..|a + [""] + b| - 1] == a + [""] + init;
      assert (a + b)[..|a + b| - 1] == a + init;
    }
  }

  lemma SplitSlashed(a: string)
    ensures Split(a + "/", '/') == Split(a, '/') + [""]
  {
    SplitConcat(a, "", '/');
    SplitStart("", '/');
    assert a + ['/'] + "" == a + "/";
  }

  /** Final slashes do not matter to joining. */
  lemma JoinSlashed(a: string, b: string)
    requires a != "" && a[0] == '/' && b != ""
    ensures JoinPath(a + "/", b) == JoinPath(a, b) && JoinPath(a, b + "/") == JoinPath(a, b)
  {
    SplitSlashed(a);
    SplitSlashed(b);
    SplitConcat(a, b, '/');
    SplitConcat(a + "/", b, '/');
    SplitConcat(a, b + "/", '/');
    ResolveWithout(Split(a, '/'), Split(b, '/'));
    ResolveSkips(Split(a, '/') + Split(b, '/'));
    hide Split, Resolve, PathOf;
    assert Split(a, '/') + (Split(b, '/') + [""]) == Split(a, '/') + Split(b, '/') + [""];
  }

  /** Joining paths puts one behind the other, without the final slash. */
  lemma JoinPaths(a: string, b: string)
    requires IsPath(a) && IsPath(b)
    ensures a != "" && a[0] == '/'
    ensures JoinPath(a, b) ==
              if Unslashed(a) == "/" then Unslashed(b) else if b == "/" then Unslashed(a) else Unslashed(a) + Unslashed(b)
  {
    PathCases(a);
    PathCases(b);
    hide JoinPath, IsPath, IsClean, Unslashed;
    JoinClean(Unslashed(a), Unslashed(b));
    JoinSlashed(Unslashed(a), Unslashed(b));
    JoinSlashed(a, Unslashed(b));
  }
}
