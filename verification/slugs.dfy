/**
  * What names and paths turn into, whatever way they are written: slugs of service names, and
  * the spellings of one service path.
  */
module Slugs {
  import opened Text
  import opened ServicePaths

  // ---------------------------------------------------------------- slugs

  /** No hyphen at either end, and no two in a row. */
  predicate Tidy(s: string) {
    && (s != "" ==> s[0] != '-' && s[|s| - 1] != '-')
    && NoDoubleHyphen(s)
  }

  predicate NoDoubleHyphen(s: string) {
    forall i :: 0 < i < |s| ==> s[i] != '-' || s[i - 1] != '-'
  }

  lemma {:induction false} CollapseTidies(s: string)
    ensures NoDoubleHyphen(Collapse(s)) && (Collapse(s) != "" ==> s != "" && Collapse(s)[0] == s[0])
    ensures Collapse(s) == "" ==> s == ""
  {
    if s != "" {
      CollapseTidies(s[1..]);
    }
  }

  lemma {:induction false} TrimmedHyphensStaySingle(s: string)
    requires NoDoubleHyphen(s)
    ensures NoDoubleHyphen(TrimHyphens(s))
  {
    if s != "" && s[0] == '-' {
      assert forall i :: 0 < i < |s[1..]| ==> s[1..][i] == s[i + 1] && s[1..][i - 1] == s[i];
      TrimmedHyphensStaySingle(s[1..]);
    } else if s != "" && s[|s| - 1] == '-' {
      TrimmedHyphensStaySingle(s[..|s| - 1]);
    }
  }

  /** Every slug is tidy. */
  lemma SlugIsTidy(name: string)
    ensures IsSlug(SlugifyName(name)) && Tidy(SlugifyName(name))
  {
    SlugifyGivesSlug(name);
    var s := SlugCharsOf(HyphensForSpaces(ToLower(TrimSpace(name))));
    CollapseTidies(s);
    TrimmedHyphensStaySingle(Collapse(s));
    hide Collapse, TrimHyphens, SlugCharsOf, TrimSpace, ToLower, HyphensForSpaces;
  }

  lemma {:induction false} SlugCharsFix(s: string)
    requires forall c :: c in s ==> IsSlugChar(c)
    ensures SlugCharsOf(s) == s
  {
    if s != "" {
      assert s[0] in s && forall c :: c in s[1..] ==> c in s;
      SlugCharsFix(s[1..]);
      assert s == [s[0]] + s[1..];
    }
  }

  lemma {:induction false} CollapseFixes(s: string)
    requires NoDoubleHyphen(s)
    ensures Collapse(s) == s
  {
    if s != "" {
      assert forall i :: 0 < i < |s[1..]| ==> s[1..][i] == s[i + 1] && s[1..][i - 1] == s[i];
      assert |s| >= 2 ==> s[1] != '-' || s[0] != '-';
      CollapseFixes(s[1..]);
      assert s == [s[0]] + s[1..];
    }
  }

  lemma TidyPasses(s: string)
    requires Tidy(s) && IsSlug(s)
    ensures TrimHyphens(Collapse(SlugCharsOf(s))) == s
  {
    SlugCharsFix(s);
    CollapseFixes(s);
  }

  predicate IsSeparator(c: char) {
    c == ' ' || c == '-'
  }

  /** Letters of any case, digits and underscores in words, with one space or hyphen between two words. */
  predicate IsWords(name: string) {
    && name != "" && !IsSeparator(name[0]) && !IsSeparator(name[|name| - 1])
    && (forall i :: 0 <= i < |name| ==> IsSlugChar(LowerChar(name[i])) || name[i] == ' ')
    && (forall i :: 0 < i < |name| ==> !IsSeparator(name[i]) || !IsSeparator(name[i - 1]))
  }

  /** Of a name that is just words, capitals become small letters, spaces hyphens, and nothing else changes. */
  lemma SlugOfWords(name: string)
    requires IsWords(name)
    ensures |SlugifyName(name)| == |name|
    ensures forall i :: 0 <= i < |name| ==>
              SlugifyName(name)[i] == if name[i] == ' ' then '-' else LowerChar(name[i])
  {
    TrimSpaceFixes(name);
    var s := HyphensForSpaces(ToLower(name));
    hide TrimSpace;
    forall i | 0 <= i < |s|
      ensures s[i] == (if name[i] == ' ' then '-' else LowerChar(name[i])) && IsSlugChar(s[i])
      ensures s[i] == '-' <==> IsSeparator(name[i])
    {
    }
    TidyPasses(s);
    hide Collapse, TrimHyphens, SlugCharsOf;
  }

  /** A tidy slug is its own slug; so slugs of slugs are the same. */
  lemma SlugFixes(s: string)
    requires IsSlug(s) && Tidy(s)
    ensures SlugifyName(s) == s
  {
    forall i | 0 <= i < |s|
      ensures IsSlugChar(LowerChar(s[i])) && LowerChar(s[i]) == s[i]
    {
      assert s[i] in s;
    }
    SlugOfWords(s);
    hide SlugifyName;
  }

  lemma SlugTwice(name: string)
    ensures SlugifyName(SlugifyName(name)) == SlugifyName(name)
  {
    SlugIsTidy(name);
    SlugFixes(SlugifyName(name));
  }

  predicate IsWordChar(c: char) {
    'a' <= c <= 'z' || IsDigit(c) || c == '_'
  }

  /** The letters, digits and underscores, in order. */
  function Letters(s: string): string {
    if s == "" then "" else (if IsWordChar(s[0]) then [s[0]] else "") + Letters(s[1..])
  }

  lemma {:induction false} LettersConcat(a: string, b: string)
    ensures Letters(a + b) == Letters(a) + Letters(b)
  {
    hide Letters, IsWordChar;
    NoLetters();
    if a == "" {
      assert a + b == b;
    } else {
      var c, rest := a[0], a[1..];
      LettersConcat(rest, b);
      LettersCons(c, rest);
      LettersCons(c, rest + b);
      assert a == [c] + rest && a + b == [c] + (rest + b);
    }
  }

  lemma NoLetters()
    ensures Letters("") == ""
  {
  }

  lemma LettersCons(c: char, s: string)
    ensures Letters([c] + s) == (if IsWordChar(c) then [c] else "") + Letters(s)
  {
    assert ([c] + s)[1..] == s;
  }

  lemma LettersSnoc(s: string)
    requires s != "" && !IsWordChar(s[|s| - 1])
    ensures Letters(s) == Letters(s[..|s| - 1])
  {
    var last := [s[|s| - 1]];
    assert s == s[..|s| - 1] + last && last[1..] == "";
    LettersConcat(s[..|s| - 1], last);
  }

  lemma {:induction false} LettersOfHyphens(s: string)
    ensures Letters(HyphensForSpaces(s)) == Letters(s)
  {
    if s != "" {
      LettersOfHyphens(s[1..]);
      assert HyphensForSpaces(s)[1..] == HyphensForSpaces(s[1..]);
    }
  }

  lemma {:induction false} LettersOfSlugChars(s: string)
    ensures Letters(SlugCharsOf(s)) == Letters(s)
  {
    if s != "" {
      LettersOfSlugChars(s[1..]);
      var front := if IsSlugChar(s[0]) then [s[0]] else "";
      LettersConcat(front, SlugCharsOf(s[1..]));
      assert front != "" ==> front[1..] == "";
    }
  }

  lemma {:induction false} LettersOfCollapsed(s: string)
    ensures Letters(Collapse(s)) == Letters(s)
  {
    if s != "" {
      LettersOfCollapsed(s[1..]);
      LettersConcat([s[0]], Collapse(s[1..]));
      assert [s[0]][1..] == "";
    }
  }

  lemma {:induction false} LettersOfTrimmed(s: string)
    ensures Letters(TrimHyphens(s)) == Letters(s)
  {
    if s != "" && s[0] == '-' {
      LettersOfTrimmed(s[1..]);
    } else if s != "" && s[|s| - 1] == '-' {
      LettersOfTrimmed(s[..|s| - 1]);
      LettersSnoc(s);
    }
  }

  lemma {:induction false} LettersOfTrimLeft(s: string)
    ensures Letters(ToLower(TrimLeft(s))) == Letters(ToLower(s))
  {
    if s != "" && IsSpace(s[0]) {
      LettersOfTrimLeft(s[1..]);
      assert ToLower(s)[1..] == ToLower(s[1..]);
    }
  }

  lemma {:induction false} LettersOfTrimRight(s: string)
    ensures Letters(ToLower(TrimRight(s))) == Letters(ToLower(s))
  {
    if s != "" && IsSpace(s[|s| - 1]) {
      LettersOfTrimRight(s[..|s| - 1]);
      LettersSnoc(ToLower(s));
      assert ToLower(s)[..|s| - 1] == ToLower(s[..|s| - 1]);
    }
  }

  /**
    * No letter or digit of a name is lost: the slug has exactly those of the name in small
    * letters, in order; if there are none at all and no hyphens survive, it is "service".
    */
  lemma SlugKeepsLetters(name: string)
    ensures Letters(ToLower(name)) != "" ==> Letters(SlugifyName(name)) == Letters(ToLower(name))
    ensures Letters(ToLower(name)) == "" ==> SlugifyName(name) == "service"
  {
    var t := ToLower(TrimSpace(name));
    var s := SlugCharsOf(HyphensForSpaces(t));
    LettersOfTrimLeft(name);
    LettersOfTrimRight(TrimLeft(name));
    LettersOfHyphens(t);
    LettersOfSlugChars(HyphensForSpaces(t));
    LettersOfCollapsed(s);
    LettersOfTrimmed(Collapse(s));
    CollapseTidies(s);
    TrimmedHyphensStaySingle(Collapse(s));
    var r := TrimHyphens(Collapse(s));
    hide Collapse, TrimHyphens, SlugCharsOf, TrimSpace, ToLower, HyphensForSpaces;
    if r != "" {
      assert r[0] in r;
    }
  }

  // ---------------------------------------------------------------- spellings of a path

  /** Blanks, tabs, line feeds, vertical tabs, form feeds and carriage returns. */
  predicate AllSpaces(s: string) {
    forall c :: c in s ==> c in " \t\n\U{B}\U{C}\r"
  }

  lemma SpacesAre(c: char)
    ensures IsSpace(c) <==> c in " \t\n\U{B}\U{C}\r"
  {
    var spaces := " \t\n\U{B}\U{C}\r";
    assert spaces[0] == ' ' && spaces[1] == '\t' && spaces[2] == '\n' && spaces[3] == '\U{B}' && spaces[4] == '\U{C}'
           && spaces[5] == '\r' && |spaces| == 6;
  }

  predicate AllSlashes(s: string) {
    forall c :: c in s ==> c == '/'
  }

  lemma {:induction false} TrimLeftDrops(a: string, s: string)
    requires AllSpaces(a) && (s == "" || !IsSpace(s[0]))
    ensures TrimLeft(a + s) == s
  {
    if a == "" {
      assert a + s == s;
    } else {
      assert a[0] in a && forall c :: c in a[1..] ==> c in a;
      TrimLeftDrops(a[1..], s);
      assert (a + s)[1..] == a[1..] + s;
    }
  }

  lemma {:induction false} TrimRightDrops(s: string, b: string)
    requires AllSpaces(b) && (s == "" || !IsSpace(s[|s| - 1]))
    ensures TrimRight(s + b) == s
  {
    if b == "" {
      assert s + b == s;
    } else {
      assert b[|b| - 1] in b && forall c :: c in b[..|b| - 1] ==> c in b;
      TrimRightDrops(s, b[..|b| - 1]);
      assert (s + b)[..|s + b| - 1] == s + b[..|b| - 1];
    }
  }

  lemma {:induction false} TrimSlashesDrops(s: string, b: string)
    requires AllSlashes(b) && (s == "" || s[|s| - 1] != '/')
    ensures TrimSlashes(s + b) == s
  {
    if b == "" {
      assert s + b == s;
    } else {
      var init := b[..|b| - 1];
      assert b[|b| - 1] in b && forall c :: c in init ==> c in b;
      TrimSlashesDrops(s, init);
      assert (s + b)[..|s + b| - 1] == s + b[..|b| - 1];
    }
  }

  /**
    * Every spelling of a service path is the same path: with or without the first slash, with
    * any slashes behind it and any white space around it.
    */
  lemma EverySpellingNormalizes(path: string, before: string, rooted: bool, slashes: string, after: string)
    requires IsServicePath(path) && path != "/" && AllSpaces(before) && AllSlashes(slashes) && AllSpaces(after)
    ensures NormalizePath(before + (if rooted then path else path[1..]) + slashes + after) == path
  {
    hide AllSpaces, IsServicePath, NormalizePath;
    ServicePathEnds(path);
    var core := if rooted then path else path[1..];
    var t := core + slashes;
    ServicePathChars(path, path[0]);
    ServicePathChars(path, path[1]);
    assert t[0] == core[0] && !IsSpace(t[0]);
    assert t[|t| - 1] == if slashes == "" then path[|path| - 1] else slashes[|slashes| - 1];
    ServicePathChars(path, path[|path| - 1]);
    assert slashes != "" ==> slashes[|slashes| - 1] in slashes;
    assert before + core + slashes + after == before + (t + after);
    assert (t + after)[0] == t[0];
    TrimLeftDrops(before, t + after);
    TrimRightDrops(t, after);
    TrimSlashesDrops(path, slashes);
    assert core[0] != '/' ==> ['/'] + t == path + slashes by {
      assert ['/'] + path[1..] == path;
    }
    hide TrimLeft, TrimRight, TrimSlashes;
    NormalizedOf(before + (if rooted then path else path[1..]) + slashes + after);
  }

  lemma NormalizedOf(p: string)
    ensures var t := TrimSpace(p);
            var trimmed := TrimSlashes(if t != [] && t[0] == '/' then t else ['/'] + t);
            NormalizePath(p) == if trimmed == [] then "/" else trimmed
  {
  }

  /** And nothing but slashes and white space is the root. */
  lemma NothingIsRoot(before: string, slashes: string, after: string)
    requires AllSpaces(before) && AllSlashes(slashes) && AllSpaces(after)
    ensures NormalizePath(before + slashes + after) == "/"
  {
    if slashes == "" {
      BlankIsNothing(before + after);
      assert before + slashes + after == before + after;
      assert TrimSlashes(['/']) == TrimSlashes([]);
    } else {
      hide AllSpaces;
      assert slashes[0] in slashes && slashes[|slashes| - 1] in slashes;
      assert before + slashes + after == before + (slashes + after);
      TrimLeftDrops(before, slashes + after);
      TrimRightDrops(slashes, after);
      TrimSlashesDrops("", slashes);
      assert "" + slashes == slashes;
    }
  }

  lemma BlankIsNothing(s: string)
    requires AllSpaces(s)
    ensures TrimSpace(s) == ""
  {
    TrimLeftDrops(s, "");
    assert s + "" == s;
  }

  // ---------------------------------------------------------------- which paths and usernames there are

  predicate LetterOrDigit(c: char) {
    'a' <= c <= 'z' || 'A' <= c <= 'Z' || '0' <= c <= '9'
  }

  /** One segment of a service path. */
  predicate PathSegment(s: string) {
    s !in ["", ".", ".."] && forall i :: 0 <= i < |s| ==> LetterOrDigit(s[i]) || s[i] in "._~-"
  }

  /** The paths of services are the root, and segments each with a slash in front. */
  lemma ServicePathsAre(p: string)
    ensures IsServicePath(p) <==>
            p == "/" || exists segments ::
              |segments| > 0 && p == "/" + Join(segments, '/') && forall s :: s in segments ==> PathSegment(s)
  {
    forall s
      ensures IsSegment(s) <==> PathSegment(s)
      ensures IsSegment(s) ==> '/' !in s
    {
      SegmentsAre(s);
    }
    hide IsSegment, PathSegment, Split, Join;
    if IsServicePath(p) && p != "/" {
      JoinOfSplit(p[1..], '/');
      assert p == "/" + Join(Split(p[1..], '/'), '/');
    }
    if segments :| |segments| > 0 && p == "/" + Join(segments, '/') && forall s :: s in segments ==> PathSegment(s) {
      SplitOfJoin(segments, '/');
      assert p[1..] == Join(segments, '/');
    }
  }

  lemma SegmentsAre(s: string)
    ensures IsSegment(s) <==> PathSegment(s)
    ensures IsSegment(s) ==> '/' !in s
  {
    var marks := "._~-";
    assert marks[0] == '.' && marks[1] == '_' && marks[2] == '~' && marks[3] == '-' && |marks| == 4;
    assert forall i :: 0 <= i < |s| ==> s[i] in s;
    assert ["", ".", ".."][0] == "" && ["", ".", ".."][1] == "." && ["", ".", ".."][2] == "..";
  }

  /** Up to 32 letters, digits, underscores and hyphens, and neither a digit nor a hyphen in front. */
  lemma UsernamesAre(name: string)
    ensures IsValidUsername(name) <==>
            && 1 <= |name| <= 32 && !('0' <= name[0] <= '9') && name[0] != '-'
            && forall i :: 0 <= i < |name| ==> LetterOrDigit(name[i]) || name[i] == '_' || name[i] == '-'
  {
    assert forall i :: 0 <= i < |name| ==> name[i] in name;
  }
}
