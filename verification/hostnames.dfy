/**
  * Virtual-host names: validating and normalizing the names in a configuration, removing
  * duplicates, and finding the name a request's Host header carries.
  */
module Hostnames {
  import opened Basics
  import opened Text

  // ---------------------------------------------------------------- one name

  predicate IsAlnum(c: char) {
    'a' <= c <= 'z' || IsDigit(c)
  }

  /** A DNS label: 1 to 63 letters, digits and inner hyphens. */
  predicate IsLabel(s: string) {
    && 1 <= |s| <= 63
    && IsAlnum(s[0]) && IsAlnum(s[|s| - 1])
    && LabelText(s)
  }

  predicate LabelText(s: string) {
    forall c :: c in s ==> IsAlnum(c) || c == '-'
  }

  predicate Forbidden(c: char) {
    c in "/:@*? \t\r\n"
  }

  /** A decimal byte without leading zeros, as net.ParseIP reads the fields of an IPv4 address. */
  predicate IsOctet(s: string) {
    1 <= |s| <= 3 && AllDigits(s) && (|s| > 1 ==> s[0] != '0') && DecimalValue(s) <= 255
  }

  /** Whether net.ParseIP accepts a string that has no colon. */
  predicate IsIPv4(s: string) {
    var fields := Split(s, '.');
    |fields| == 4 && forall f :: f in fields ==> IsOctet(f)
  }

  function Folded(raw: string): string {
    ToLower(TrimSpace(TrimSuffix(raw, ".")))
  }

  predicate Acceptable(host: string) {
    var labels := Split(host, '.');
    && host != []
    && (forall c :: c in host ==> !Forbidden(c))
    && !IsIPv4(host)
    && |host| <= 253
    && |labels| >= 2
    && (forall l :: l in labels ==> IsLabel(l))
  }

  function NormalizeHostname(raw: string): Option<string> {
    if Acceptable(Folded(raw)) then Some(Folded(raw)) else None
  }

  /** A name in the form under which it is stored and looked up. */
  predicate IsNormal(host: string) {
    NormalizeHostname(host) == Some(host)
  }

  lemma EndsInLabel(host: string)
    requires Acceptable(host)
    ensures IsAlnum(host[|host| - 1])
  {
    var labels := Split(host, '.');
    var end := labels[|labels| - 1];
    assert end in labels && IsLabel(end);
    SplitLast(host, '.');
  }

  lemma ToLowerTwice(s: string)
    ensures ToLower(ToLower(s)) == ToLower(s)
  {
    assert forall i :: 0 <= i < |s| ==> LowerChar(LowerChar(s[i])) == LowerChar(s[i]);
  }

  lemma ToLowerTrimmed(s: string)
    requires Trimmed(s)
    ensures Trimmed(ToLower(s))
  {
  }

  lemma FoldedFixes(host: string)
    requires ToLower(host) == host && Trimmed(host)
    requires host != [] ==> host[|host| - 1] != '.'
    ensures Folded(host) == host
  {
    assert host != [] ==> host[|host| - 1..][0] == host[|host| - 1];
    TrimSpaceFixes(host);
  }

  /** Normalizing is idempotent: every result is in normal form. */
  lemma NormalizeTwice(raw: string)
    requires NormalizeHostname(raw).Some?
    ensures IsNormal(NormalizeHostname(raw).value)
  {
    var host := Folded(raw);
    TrimSpaceTrims(TrimSuffix(raw, "."));
    ToLowerTrimmed(TrimSpace(TrimSuffix(raw, ".")));
    ToLowerTwice(TrimSpace(TrimSuffix(raw, ".")));
    EndsInLabel(host);
    FoldedFixes(host);
  }

  // ---------------------------------------------------------------- lists of names

  /** The normalized names in order of first appearance. */
  function Kept(raws: seq<string>): seq<string> {
    if raws == [] then []
    else
      var init, host := Kept(raws[..|raws| - 1]), NormalizeHostname(raws[|raws| - 1]);
      if host.None? || host.value in init then init else init + [host.value]
  }

  /** The raw entries that are not hostnames, in order. */
  function Dropped(raws: seq<string>): seq<string> {
    if raws == [] then []
    else
      var last := raws[|raws| - 1];
      Dropped(raws[..|raws| - 1]) + if NormalizeHostname(last).None? then [last] else []
  }

  /** What a service's list of hostnames looks like once stored. */
  predicate NormalList(hosts: seq<string>) {
    Distinct(hosts) && forall h :: h in hosts ==> IsNormal(h)
  }

  method NormalizeHostnames(raws: seq<string>) returns (kept: seq<string>, dropped: seq<string>)
    ensures kept == Kept(raws) && dropped == Dropped(raws)
  {
    hide NormalizeHostname;
    kept, dropped := [], [];
    var seen: set<string> := {};
    for i := 0 to |raws|
      invariant kept == Kept(raws[..i]) && dropped == Dropped(raws[..i])
      invariant forall h :: h in seen <==> h in kept
    {
      assert raws[..i + 1][..i] == raws[..i];
      var host := NormalizeHostname(raws[i]);
      if host.None? {
        dropped := dropped + [raws[i]];
      } else if host.value !in seen {
        seen := seen + {host.value};
        kept := kept + [host.value];
      }
    }
    assert raws[..|raws|] == raws;
  }

  /** The names kept are exactly the normal forms of the entries, each once. */
  lemma {:induction false} KeptExactly(raws: seq<string>, h: string)
    ensures h in Kept(raws) <==> exists raw :: raw in raws && NormalizeHostname(raw) == Some(h)
    ensures NormalList(Kept(raws))
  {
    hide NormalizeHostname;
    if raws != [] {
      var init, last := raws[..|raws| - 1], raws[|raws| - 1];
      KeptExactly(init, h);
      assert forall raw :: raw in raws <==> raw in init || raw == last;
      if NormalizeHostname(last).Some? {
        NormalizeTwice(last);
      }
    }
  }

  /** Nothing is lost silently: an entry is dropped exactly if it is no hostname. */
  lemma {:induction false} DroppedExactly(raws: seq<string>, raw: string)
    ensures raw in Dropped(raws) <==> raw in raws && NormalizeHostname(raw).None?
  {
    hide NormalizeHostname;
    if raws != [] {
      DroppedExactly(raws[..|raws| - 1], raw);
      assert forall x :: x in raws <==> x in raws[..|raws| - 1] || x == raws[|raws| - 1];
    }
  }

  /** A stored list is left as it is, and only such a list is. */
  lemma KeptFixes(hosts: seq<string>)
    ensures Kept(hosts) == hosts <==> NormalList(hosts)
    ensures NormalList(hosts) ==> Dropped(hosts) == []
  {
    hide NormalizeHostname;
    if NormalList(hosts) {
      NormalListIsKept(hosts);
      if Dropped(hosts) != [] {
        DroppedExactly(hosts, Dropped(hosts)[0]);
      }
    } else if Kept(hosts) == hosts {
      KeptExactly(hosts, "");
    }
  }

  lemma {:induction false} NormalListIsKept(hosts: seq<string>)
    requires NormalList(hosts)
    ensures Kept(hosts) == hosts
  {
    hide NormalizeHostname;
    if hosts != [] {
      var init, last := hosts[..|hosts| - 1], hosts[|hosts| - 1];
      assert forall h :: h in init ==> h in hosts;
      NormalListIsKept(init);
      assert hosts == init + [last] && last in hosts && last !in init;
    }
  }

  // ---------------------------------------------------------------- the Host header

  /** The host net.SplitHostPort returns; `None` for its errors. */
  function SplitHost(hostport: string): Option<string> {
    var i := LastIndex(hostport, ':');
    if i < 0 then None
    else if hostport[0] == '[' then
      var end := Find(hostport, ']');
      if end + 1 != i || '[' in hostport[1..] || ']' in hostport[end + 1..] then None
      else Some(hostport[1..end])
    else if ':' in hostport[..i] || '[' in hostport || ']' in hostport then None
    else Some(hostport[..i])
  }

  /** strings.Trim(s, "[]") */
  function TrimBrackets(s: string): string {
    if s != [] && s[0] in "[]" then TrimBrackets(s[1..])
    else if s != [] && s[|s| - 1] in "[]" then TrimBrackets(s[..|s| - 1])
    else s
  }

  function HostFromHostPort(hostport: string): string {
    var trimmed := TrimSpace(hostport);
    if trimmed == [] then []
    else
      var host := SplitHost(trimmed);
      ToLower(TrimSuffix(if host.Some? then host.value else TrimBrackets(trimmed), "."))
  }

  /** The ways a client may write a name: any letter case, a final dot, a port. */
  ghost predicate Spells(header: string, host: string) {
    exists name, dot, port ::
      && ToLower(name) == host && dot in {"", "."} && AllDigits(port)
      && (header == name + dot || header == name + dot + ":" + port)
  }

  lemma PlainChars(host: string, c: char)
    requires Acceptable(host) && c in host
    ensures IsAlnum(c) || c == '-' || c == '.'
  {
    if c != '.' {
      var part := SplitChar(host, '.', c);
      assert IsLabel(part);
    }
  }

  /** What a header part holds that spells a host name: none of the characters the parser looks for. */
  predicate Plain(s: string) {
    forall c :: c in s ==> c != ':' && c != '[' && c != ']' && !IsSpace(c)
  }

  lemma SpellingIsPlain(name: string, host: string)
    requires Acceptable(host) && ToLower(name) == host
    ensures Plain(name) && name != [] && name[|name| - 1] != '.'
  {
    EndsInLabel(host);
    assert LowerChar(name[|name| - 1]) == host[|host| - 1];
    forall c | c in name
      ensures c != ':' && c != '[' && c != ']' && !IsSpace(c)
    {
      var i :| 0 <= i < |name| && name[i] == c;
      assert host[i] == LowerChar(c);
      PlainChars(host, host[i]);
    }
  }

  lemma PlainHost(s: string)
    requires Plain(s) && s != []
    ensures HostFromHostPort(s) == ToLower(TrimSuffix(s, "."))
  {
    hide TrimSpace, TrimSuffix, HasSuffix;
    assert forall i :: 0 <= i < |s| ==> s[i] in s;
    TrimSpaceFixes(s);
    assert LastIndex(s, ':') == -1;
    assert TrimBrackets(s) == s;
  }

  lemma PlainHostPort(s: string, port: string)
    requires Plain(s) && s != [] && AllDigits(port)
    ensures HostFromHostPort(s + ":" + port) == ToLower(TrimSuffix(s, "."))
  {
    hide TrimSpace, TrimSuffix, LastIndex, Find;
    var h := s + ":" + port;
    assert h[|h| - 1] == ':' || IsDigit(h[|h| - 1]) by {
      assert port != [] ==> h[|h| - 1] in port;
    }
    assert s[0] in s && h[0] == s[0];
    TrimSpaceFixes(h);
    LastIndexAt(s, port, ':');
    assert h == s + [':'] + port && h[..|s|] == s;
    assert forall c :: c in h ==> c in s || c == ':' || IsDigit(c);
  }

  lemma TrimDot(name: string, dot: string)
    requires name != [] && name[|name| - 1] != '.' && dot in {"", "."}
    ensures TrimSuffix(name + dot, ".") == name
  {
    if dot == "" {
      assert name + dot == name;
      assert name[|name| - 1..][0] == name[|name| - 1];
    } else {
      assert (name + dot)[|name|..] == ".";
      assert (name + dot)[..|name|] == name;
    }
  }

  /** However a client spells a configured name, the request is looked up under the stored one. */
  lemma EverySpellingIsFound(header: string, host: string)
    requires IsNormal(host) && Spells(header, host)
    ensures HostFromHostPort(header) == host
  {
    var name, dot, port :|
      && ToLower(name) == host && dot in {"", "."} && AllDigits(port)
      && (header == name + dot || header == name + dot + ":" + port);
    SpellingIsPlain(name, host);
    assert Plain(name + dot);
    TrimDot(name, dot);
    if header == name + dot {
      PlainHost(header);
    } else {
      PlainHostPort(name + dot, port);
    }
  }
}
