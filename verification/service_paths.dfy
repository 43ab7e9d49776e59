/**
  * Names and paths: normalizing and validating service paths, deriving them from names, valid
  * usernames, and making names unique with a numeric suffix.
  */
module ServicePaths {
  import opened Text

  predicate IsPathChar(c: char) {
    'A' <= c <= 'Z' || 'a' <= c <= 'z' || IsDigit(c) || c == '.' || c == '_' || c == '~' || c == '-'
  }

  predicate IsSegment(s: string) {
    s != "" && s != "." && s != ".." && forall c :: c in s ==> IsPathChar(c)
  }

  /** The empty path stands for one to be generated. */
  predicate ValidatePath(p: string) {
    || p == "" || p == "/"
    || (p[0] == '/' && forall seg :: seg in Split(p[1..], '/') ==> IsSegment(seg))
  }

  function NormalizePath(p: string): string {
    var t := TrimSpace(p);
    var rooted := if t != [] && t[0] == '/' then t else ['/'] + t;
    var trimmed := TrimSlashes(rooted);
    if trimmed == [] then "/" else trimmed
  }

  /** A path a stored service may have. */
  predicate IsServicePath(p: string) {
    p != "" && ValidatePath(p)
  }

  lemma ServicePathChars(p: string, c: char)
    requires IsServicePath(p) && c in p
    ensures c == '/' || IsPathChar(c)
  {
    if p != "/" && c != '/' {
      var part := SplitChar(p[1..], '/', c);
    }
  }

  lemma ServicePathEnds(p: string)
    requires IsServicePath(p) && p != "/"
    ensures |p| > 1 && p[0] == '/' && IsPathChar(p[1]) && p[|p| - 1] != '/'
  {
    var parts := Split(p[1..], '/');
    assert parts[0] in parts && parts[|parts| - 1] in parts;
    if p[1..] != [] {
      SplitLast(p[1..], '/');
    }
  }

  /** Valid paths are left alone, so storing a normalized path and loading it is the identity. */
  lemma NormalizeFixes(p: string)
    requires IsServicePath(p)
    ensures NormalizePath(p) == p
  {
    ServicePathChars(p, p[0]);
    ServicePathChars(p, p[|p| - 1]);
    TrimSpaceFixes(p);
    if p == "/" {
      assert p[..0] == [] && TrimSlashes(p) == TrimSlashes([]);
    } else {
      ServicePathEnds(p);
    }
  }

  lemma NormalizedIsRooted(p: string)
    ensures NormalizePath(p) != "" && NormalizePath(p)[0] == '/'
    ensures NormalizePath(p) != "/" ==> NormalizePath(p)[|NormalizePath(p)| - 1] != '/'
  {
    var t := TrimSpace(p);
    TrimSlashesResult(if t != [] && t[0] == '/' then t else ['/'] + t);
  }

  // ---------------------------------------------------------------- usernames

  predicate IsNameStart(c: char) {
    'a' <= c <= 'z' || 'A' <= c <= 'Z' || c == '_'
  }

  predicate IsValidUsername(name: string) {
    && 1 <= |name| <= 32 && IsNameStart(name[0])
    && forall c :: c in name ==> IsNameStart(c) || IsDigit(c) || c == '-'
  }

  // ---------------------------------------------------------------- slugs

  predicate IsSlugChar(c: char) {
    'a' <= c <= 'z' || IsDigit(c) || c == '_' || c == '-'
  }

  function HyphensForSpaces(s: string): (r: string)
    ensures |r| == |s|
  {
    seq(|s|, i requires 0 <= i < |s| => if s[i] == ' ' then '-' else s[i])
  }

  function SlugCharsOf(s: string): (r: string)
    ensures forall c :: c in r ==> IsSlugChar(c)
  {
    if s == [] then [] else (if IsSlugChar(s[0]) then [s[0]] else []) + SlugCharsOf(s[1..])
  }

  /** Runs of hyphens become one. */
  function Collapse(s: string): (r: string)
    ensures forall c :: c in r ==> c in s
  {
    if |s| >= 2 && s[0] == '-' && s[1] == '-' then Collapse(s[1..])
    else if s == [] then [] else [s[0]] + Collapse(s[1..])
  }

  /** strings.Trim(s, "-") */
  function TrimHyphens(s: string): (r: string)
    ensures forall c :: c in r ==> c in s
    ensures r != [] ==> r[0] != '-' && r[|r| - 1] != '-'
  {
    if s != [] && s[0] == '-' then TrimHyphens(s[1..])
    else if s != [] && s[|s| - 1] == '-' then TrimHyphens(s[..|s| - 1])
    else s
  }

  function SlugifyName(name: string): string {
    var slug := TrimHyphens(Collapse(SlugCharsOf(HyphensForSpaces(ToLower(TrimSpace(name))))));
    if slug == "" then "service" else slug
  }

  /** A slug, or a slug with a numeric suffix. */
  predicate IsSlug(s: string) {
    s != "" && forall c :: c in s ==> IsSlugChar(c)
  }

  lemma SlugifyGivesSlug(name: string)
    ensures IsSlug(SlugifyName(name))
  {
  }

  /** A slug makes a valid path as it is. */
  lemma SlugPath(s: string)
    requires IsSlug(s)
    ensures IsServicePath("/" + s) && NormalizePath("/" + s) == "/" + s
  {
    assert ("/" + s)[1..] == s;
    SplitWhole(s, '/');
    assert s[0] in s && forall c :: c in s ==> IsPathChar(c);
    NormalizeFixes("/" + s);
  }

  // ---------------------------------------------------------------- numeric suffixes

  /** The `n`th candidate name: the base itself, then base-2, base-3 and so on. */
  function Numbered(base: string, n: nat): string {
    if n <= 1 then base else base + "-" + Decimal(n)
  }

  lemma NumberedInjective(base: string, m: nat, n: nat)
    requires 1 <= m <= n && Numbered(base, m) == Numbered(base, n)
    ensures m == n
  {
    if m >= 2 {
      var a, b := Numbered(base, m), Numbered(base, n);
      assert a[|base| + 1..] == Decimal(m) && b[|base| + 1..] == Decimal(n);
      DecimalInjective(m, n);
    }
  }

  /** The first free candidate from the `n`th on. */
  function FirstFree(base: string, taken: set<string>, n: nat): nat
    decreases |taken|
  {
    var name := Numbered(base, n);
    if name in taken then FirstFree(base, taken - {name}, n + 1) else n
  }

  function Unique(base: string, taken: set<string>): string {
    Numbered(base, FirstFree(base, taken, 1))
  }

  /** The pigeonhole: one step per taken name is always enough. */
  lemma {:induction false} FirstFreeIsFirst(base: string, taken: set<string>, n: nat)
    requires n >= 1
    ensures var k := FirstFree(base, taken, n);
            && n <= k <= n + |taken|
            && Numbered(base, k) !in taken
            && forall m: nat :: n <= m < k ==> Numbered(base, m) in taken
    decreases |taken|
  {
    hide Numbered;
    var name := Numbered(base, n);
    if name in taken {
      FirstFreeIsFirst(base, taken - {name}, n + 1);
      var k := FirstFree(base, taken, n);
      if Numbered(base, k) == name {
        NumberedInjective(base, n, k);
      }
    }
  }

  /** The search the code runs, and how long it can run. */
  method MakeUnique(base: string, taken: set<string>) returns (name: string)
    ensures name == Unique(base, taken)
  {
    name := base;
    var n := 2;
    ghost var tried: set<string> := {};
    assert taken - tried == taken;
    while name in taken
      invariant n >= 2 && name == Numbered(base, n - 1)
      invariant tried <= taken && |tried| == n - 2
      invariant forall s :: s in tried ==> exists m: nat :: 1 <= m < n - 1 && s == Numbered(base, m)
      invariant FirstFree(base, taken, 1) == FirstFree(base, taken - tried, n - 1)
      decreases taken - tried
    {
      forall m: nat | 1 <= m < n - 1
        ensures Numbered(base, m) != name
      {
        if Numbered(base, m) == name {
          NumberedInjective(base, m, n - 1);
        }
      }
      assert name !in tried;
      assert taken - tried - {name} == taken - (tried + {name});
      tried := tried + {name};
      name := base + "-" + Decimal(n);
      n := n + 1;
    }
    assert FirstFree(base, taken - tried, n - 1) == n - 1;
  }

  /** The unique name is new, and is the base itself whenever that is free. */
  lemma UniqueIsNew(base: string, taken: set<string>)
    ensures Unique(base, taken) !in taken
    ensures base !in taken <==> Unique(base, taken) == base
  {
    FirstFreeIsFirst(base, taken, 1);
  }

  /** A suffix leaves a slug a slug. */
  lemma UniqueSlug(base: string, taken: set<string>)
    requires IsSlug(base)
    ensures IsSlug(Unique(base, taken))
  {
  }
}
