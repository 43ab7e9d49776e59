/**
  * Inserting the <base> tag into an HTML body: finding an opening tag, and the splice.  The
  * body is ASCII, so that folding its case does not change its length.
  */
module HtmlBase {
  import opened Text

  predicate EndsName(c: char) {
    c == '>' || c == ' ' || c == '\t' || c == '\r' || c == '\n' || c == '/'
  }

  predicate At(s: string, needle: string, i: nat) {
    i + |needle| <= |s| && s[i..i + |needle|] == needle
  }

  /** An opening tag: its name is not the start of a longer one, such as head of header. */
  predicate OpensTag(lower: string, name: string, i: nat) {
    var needle := "<" + name;
    At(lower, needle, i) && (i + |needle| == |lower| || EndsName(lower[i + |needle|]))
  }

  /** bytes.Index from an offset on. */
  method IndexFrom(s: string, needle: string, start: nat) returns (i: int)
    requires start <= |s|
    ensures -1 <= i && (i >= 0 ==> start <= i && At(s, needle, i))
    ensures forall j: nat :: start <= j && (i >= 0 ==> j < i) ==> !At(s, needle, j)
  {
    i := start;
    while i <= |s|
      invariant start <= i
      invariant forall j: nat :: start <= j < i ==> !At(s, needle, j)
    {
      if At(s, needle, i) {
        return;
      }
      i := i + 1;
    }
    i := -1;
  }

  /** The first opening tag of this name, or -1. */
  method IndexOpeningTag(lower: string, name: string) returns (i: int)
    ensures -1 <= i && (i >= 0 ==> OpensTag(lower, name, i))
    ensures forall j: nat :: (i >= 0 ==> j < i) ==> !OpensTag(lower, name, j)
  {
    var needle, off := "<" + name, 0;
    while off < |lower|
      invariant forall j: nat :: j < off ==> !OpensTag(lower, name, j)
    {
      i := IndexFrom(lower, needle, off);
      if i < 0 {
        return;
      }
      var next := i + |needle|;
      if next >= |lower| || EndsName(lower[next]) {
        return;
      }
      off := i + 1;
    }
    i := -1;
  }

  function Spliced(body: string, at: nat, tag: string): string
    requires at <= |body|
  {
    body[..at] + tag + body[at..]
  }

  ghost predicate HasTag(lower: string, name: string) {
    exists i: nat :: OpensTag(lower, name, i)
  }

  /** The first opening tag of this name stands at `i`. */
  ghost predicate FirstTag(lower: string, name: string, i: nat) {
    OpensTag(lower, name, i) && forall j: nat :: j < i ==> !OpensTag(lower, name, j)
  }

  ghost predicate FirstAt(s: string, needle: string, i: nat) {
    At(s, needle, i) && forall j: nat :: j < i ==> !At(s, needle, j)
  }

  /** Behind the tag that opens at `i`, or before it if it is never closed. */
  function BehindTag(body: string, i: nat): (k: nat)
    requires i <= |body|
    ensures i <= k <= |body|
  {
    var n := Find(body[i..], '>');
    if n < |body[i..]| then i + n + 1 else i
  }

  /**
    * Where the tag belongs: behind the first <head> if there is one, else before the first
    * </head>, else before the first <body>, else behind the first <html>, else in front.
    */
  ghost predicate Belongs(body: string, at: nat) {
    var lower := ToLower(body);
    if HasTag(lower, "head") then BehindFirst(body, "head", at)
    else if exists i: nat :: At(lower, "</head>", i) then FirstAt(lower, "</head>", at)
    else if HasTag(lower, "body") then FirstTag(lower, "body", at)
    else if HasTag(lower, "html") then BehindFirst(body, "html", at)
    else at == 0
  }

  ghost predicate BehindFirst(body: string, name: string, at: nat) {
    exists i: nat :: FirstTag(ToLower(body), name, i) && i <= |body| && at == BehindTag(body, i)
  }

  /** The result is the body with the tag inserted at one place, where it belongs. */
  ghost predicate Injected(body: string, tag: string, result: string) {
    exists at: nat :: at <= |body| && Belongs(body, at) && result == Spliced(body, at, tag)
  }

  method InjectBaseTag(body: string, tag: string) returns (result: string)
    ensures Injected(body, tag, result)
  {
    hide ToLower;
    var lower := ToLower(body);
    var idx := IndexOpeningTag(lower, "head");
    if idx != -1 {
      assert Belongs(body, BehindTag(body, idx));
      return Spliced(body, BehindTag(body, idx), tag);
    }
    idx := IndexFrom(lower, "</head>", 0);
    if idx != -1 {
      assert Belongs(body, idx);
      return Spliced(body, idx, tag);
    }
    idx := IndexOpeningTag(lower, "body");
    if idx != -1 {
      assert Belongs(body, idx);
      return Spliced(body, idx, tag);
    }
    idx := IndexOpeningTag(lower, "html");
    if idx != -1 {
      assert Belongs(body, BehindTag(body, idx));
      return Spliced(body, BehindTag(body, idx), tag);
    }
    result := tag + body;
    assert Belongs(body, 0) && result == Spliced(body, 0, tag);
  }

  // ---------------------------------------------------------------- spelled out

  predicate Contains(s: string, needle: string) {
    exists i: nat :: i <= |s| && At(s, needle, i)
  }

  /** The tag's name in letters of any case, and what may stand behind it up to the closing bracket. */
  predicate IsOpening(open: string, name: string) {
    && |open| > 1 + |name| && ToLower(open[..1 + |name|]) == "<" + name && open[1 + |name|] in " \t\r\n/>"
    && open[|open| - 1] == '>' && '>' !in open[..|open| - 1]
  }

  lemma LowerConcat(a: string, b: string)
    ensures ToLower(a + b) == ToLower(a) + ToLower(b)
  {
  }

  lemma EndsAre(c: char)
    ensures EndsName(c) <==> c in " \t\r\n/>"
  {
    var ends := " \t\r\n/>";
    assert ends[0] == ' ' && ends[1] == '\t' && ends[2] == '\r' && ends[3] == '\n' && ends[4] == '/' && ends[5] == '>'
           && |ends| == 6;
  }

  /** The text nowhere has these characters, in any case. */
  predicate Lacks(text: string, needle: string) {
    !Contains(ToLower(text), needle)
  }

  /** What starts with a bracket and stands nowhere in `a` stands first behind it. */
  lemma FirstBehind(a: string, needle: string, rest: string)
    requires needle != "" && needle[0] == '<' && '<' !in needle[1..] && needle <= rest && !Contains(a, needle)
    ensures FirstAt(a + rest, needle, |a|)
  {
    var s := a + rest;
    assert s[|a|..|a| + |needle|] == rest[..|needle|];
    assert s[|a|] == '<' && forall n :: 0 < n < |needle| ==> needle[n] == needle[1..][n - 1] != '<';
    forall j: nat | j < |a|
      ensures !At(s, needle, j)
    {
      if j + |needle| <= |a| {
        assert a[j..j + |needle|] == s[j..j + |needle|];
        assert !At(a, needle, j);
      } else if j + |needle| <= |s| {
        assert s[j..j + |needle|][|a| - j] == '<';
      }
    }
  }

  lemma OpeningIsFirst(a: string, open: string, more: string, name: string)
    requires '<' !in name && IsOpening(open, name) && Lacks(a, "<" + name)
    ensures var body := a + open + more;
            FirstTag(ToLower(body), name, |a|) && BehindTag(body, |a|) == |a + open|
  {
    var body, needle := a + open + more, "<" + name;
    var low := ToLower(open + more);
    assert body == a + (open + more) && needle[1..] == name;
    LowerConcat(a, open + more);
    assert low[..|needle|] == ToLower(open[..|needle|]);
    assert needle <= low;
    FirstBehind(ToLower(a), needle, low);
    EndsAre(open[|needle|]);
    assert ToLower(body)[|a| + |needle|] == LowerChar(open[|needle|]) == open[|needle|];
    assert body[|a|..] == open[..|open| - 1] + ['>'] + more;
    FindAt(open[..|open| - 1], more, '>');
  }

  lemma Needles()
    ensures "<" + "head" == "<head" && "<" + "body" == "<body" && "<" + "html" == "<html"
    ensures '<' !in "head" && '<' !in "body" && '<' !in "html"
  {
  }

  lemma NoTag(body: string, name: string)
    requires Lacks(body, "<" + name)
    ensures !HasTag(ToLower(body), name)
  {
  }

  lemma OneFirst(s: string, name: string, i: nat, j: nat)
    ensures FirstTag(s, name, i) && FirstTag(s, name, j) ==> i == j
    ensures FirstAt(s, name, i) && FirstAt(s, name, j) ==> i == j
  {
  }

  lemma BehindOne(body: string, name: string, i: nat, k: nat)
    requires FirstTag(ToLower(body), name, i) && BehindFirst(body, name, k)
    ensures i <= |body| && k == BehindTag(body, i)
  {
    hide ToLower, FirstTag, BehindTag;
    var j: nat :| FirstTag(ToLower(body), name, j) && j <= |body| && k == BehindTag(body, j);
    OneFirst(ToLower(body), name, i, j);
  }

  lemma FirstIsSome(body: string, name: string, i: nat)
    ensures FirstTag(ToLower(body), name, i) ==> HasTag(ToLower(body), name)
    ensures FirstAt(ToLower(body), name, i) ==> exists j: nat :: At(ToLower(body), name, j)
    ensures Lacks(body, name) ==> !exists j: nat :: At(ToLower(body), name, j)
  {
  }

  /** Behind the first <head>, however that is written and whatever else is on the page. */
  lemma HeadGetsTag(a: string, open: string, more: string, tag: string, result: string)
    requires IsOpening(open, "head") && Lacks(a, "<head")
    requires Injected(a + open + more, tag, result)
    ensures result == a + open + tag + more
  {
    var body := a + open + more;
    hide *;
    Needles();
    OpeningIsFirst(a, open, more, "head");
    FirstIsSome(body, "head", |a|);
    var at := InjectedAt(body, tag, result);
    BelongsCases(body, at);
    BehindOne(body, "head", |a|, at);
    Cut(a + open, more, at, tag, result);
  }

  lemma InjectedAt(body: string, tag: string, result: string) returns (at: nat)
    requires Injected(body, tag, result)
    ensures at <= |body| && Belongs(body, at) && result == body[..at] + tag + body[at..]
  {
    hide Belongs;
    at :| at <= |body| && Belongs(body, at) && result == Spliced(body, at, tag);
  }

  lemma Cut(front: string, back: string, at: nat, tag: string, result: string)
    requires at == |front| && result == (front + back)[..at] + tag + (front + back)[at..]
    ensures result == front + tag + back
  {
    assert (front + back)[..at] == front && (front + back)[at..] == back;
  }

  lemma BelongsCases(body: string, at: nat)
    requires Belongs(body, at)
    ensures var lower := ToLower(body);
            && (HasTag(lower, "head") ==> BehindFirst(body, "head", at))
            && (!HasTag(lower, "head") ==>
                  var closed := exists i: nat :: At(lower, "</head>", i);
                  && (closed ==> FirstAt(lower, "</head>", at))
                  && (!closed && HasTag(lower, "body") ==> FirstTag(lower, "body", at))
                  && (!closed && !HasTag(lower, "body") && HasTag(lower, "html") ==> BehindFirst(body, "html", at))
                  && (!closed && !HasTag(lower, "body") && !HasTag(lower, "html") ==> at == 0))
  {
    hide HasTag, BehindFirst, FirstAt, FirstTag, At, ToLower;
  }

  lemma EndIsFirst(a: string, close: string, more: string)
    requires ToLower(close) == "</head>" && Lacks(a, "</head>")
    ensures FirstAt(ToLower(a + close + more), "</head>", |a|)
  {
    assert a + close + more == a + (close + more);
    LowerConcat(a, close + more);
    LowerConcat(close, more);
    assert '<' !in "</head>"[1..];
    FirstBehind(ToLower(a), "</head>", ToLower(close + more));
  }

  /** Without a <head>, in front of the first </head>. */
  lemma HeadEndGetsTag(a: string, close: string, more: string, tag: string, result: string)
    requires ToLower(close) == "</head>" && Lacks(a, "</head>") && Lacks(a + close + more, "<head")
    requires Injected(a + close + more, tag, result)
    ensures result == a + tag + close + more
  {
    var body := a + close + more;
    hide *;
    Needles();
    EndIsFirst(a, close, more);
    assert body == a + (close + more);
    NoTag(body, "head");
    FirstIsSome(body, "</head>", |a|);
    var at := InjectedAt(body, tag, result);
    BelongsCases(body, at);
    OneFirst(ToLower(body), "</head>", |a|, at);
    Cut(a, close + more, at, tag, result);
    assert a + tag + (close + more) == a + tag + close + more;
  }

  /** Without either, in front of the first <body>. */
  lemma BodyGetsTag(a: string, open: string, more: string, tag: string, result: string)
    requires IsOpening(open, "body") && Lacks(a, "<body")
    requires Lacks(a + open + more, "<head") && Lacks(a + open + more, "</head>")
    requires Injected(a + open + more, tag, result)
    ensures result == a + tag + open + more
  {
    var body := a + open + more;
    hide *;
    Needles();
    OpeningIsFirst(a, open, more, "body");
    NoTag(body, "head");
    FirstIsSome(body, "</head>", 0);
    FirstIsSome(body, "body", |a|);
    var at := InjectedAt(body, tag, result);
    BelongsCases(body, at);
    OneFirst(ToLower(body), "body", |a|, at);
    assert body == a + (open + more);
    Cut(a, open + more, at, tag, result);
    assert a + tag + (open + more) == a + tag + open + more;
  }

  /** Without any of them, behind the first <html>. */
  lemma HtmlGetsTag(a: string, open: string, more: string, tag: string, result: string)
    requires IsOpening(open, "html") && Lacks(a, "<html")
    requires var body := a + open + more; Lacks(body, "<head") && Lacks(body, "</head>") && Lacks(body, "<body")
    requires Injected(a + open + more, tag, result)
    ensures result == a + open + tag + more
  {
    var body := a + open + more;
    hide *;
    Needles();
    OpeningIsFirst(a, open, more, "html");
    NoTag(body, "head");
    NoTag(body, "body");
    FirstIsSome(body, "</head>", 0);
    FirstIsSome(body, "html", |a|);
    var at := InjectedAt(body, tag, result);
    BelongsCases(body, at);
    BehindOne(body, "html", |a|, at);
    Cut(a + open, more, at, tag, result);
  }

  /** And in front of everything in a fragment without any of the four. */
  lemma FragmentGetsTag(body: string, tag: string, result: string)
    requires Lacks(body, "<head") && Lacks(body, "</head>") && Lacks(body, "<body") && Lacks(body, "<html")
    requires Injected(body, tag, result)
    ensures result == tag + body
  {
    hide *;
    Needles();
    NoTag(body, "head");
    NoTag(body, "body");
    NoTag(body, "html");
    FirstIsSome(body, "</head>", 0);
    var at := InjectedAt(body, tag, result);
    BelongsCases(body, at);
    assert body[..0] + tag + body[0..] == tag + body;
  }

  /** A <header> is never taken for a <head>. */
  lemma HeaderIsNotHead(lower: string, i: nat)
    requires At(lower, "<header", i)
    ensures !OpensTag(lower, "head", i)
  {
    assert lower[i + 5] == lower[i..i + 7][5] == 'e';
  }
}
