/**
  * Which names are hostnames, spelled out: dotted labels of the DNS, and no IPv4 address; and
  * the spellings under which an operator or a client may write one.
  */
module HostnameRules {
  import opened Basics
  import opened Text
  import opened Slugs
  import opened Hostnames

  predicate LetterOrDigit(c: char) {
    'a' <= c <= 'z' || '0' <= c <= '9'
  }

  /** A label of the DNS in small letters. */
  predicate DnsLabel(l: string) {
    && 1 <= |l| <= 63 && LetterOrDigit(l[0]) && LetterOrDigit(l[|l| - 1])
    && forall i :: 0 <= i < |l| ==> LetterOrDigit(l[i]) || l[i] == '-'
  }

  /** Labels with dots between them. */
  predicate Dotted(host: string, labels: seq<string>) {
    |labels| > 0 && host == Join(labels, '.')
  }

  /** Four decimals with dots between them. */
  function Quad(a: nat, b: nat, c: nat, d: nat): string {
    Decimal(a) + "." + Decimal(b) + "." + Decimal(c) + "." + Decimal(d)
  }

  /** Four numbers from 0 to 255, as an address. */
  ghost predicate DottedQuad(host: string) {
    exists a: nat, b: nat, c: nat, d: nat ::
      a <= 255 && b <= 255 && c <= 255 && d <= 255 && host == Quad(a, b, c, d)
  }

  lemma LabelsAre(l: string)
    ensures IsLabel(l) <==> DnsLabel(l)
  {
    assert forall i :: 0 <= i < |l| ==> l[i] in l;
  }

  // ---------------------------------------------------------------- decimals

  lemma DecimalIs(n: nat)
    ensures n < 10 ==> Decimal(n) == [Digit(n)]
    ensures n >= 10 ==> Decimal(n) == Decimal(n / 10) + [Digit(n % 10)]
  {
  }

  lemma DigitsBack(c: char)
    requires IsDigit(c)
    ensures DigitValue(c) < 10 && Digit(DigitValue(c)) == c
  {
  }

  /** A decimal without leading zeros is what its value prints as. */
  lemma {:induction false} DecimalBack(s: string)
    requires s != "" && AllDigits(s) && (|s| > 1 ==> s[0] != '0')
    ensures Decimal(DecimalValue(s)) == s && (s[0] != '0' ==> DecimalValue(s) > 0)
    decreases |s|
  {
    var init, last := s[..|s| - 1], s[|s| - 1];
    assert last in s && s[0] in s && forall c :: c in init ==> c in s;
    DigitsBack(last);
    if init != "" {
      DecimalBack(init);
      var v := DecimalValue(init);
      assert v > 0 && DecimalValue(s) == 10 * v + DigitValue(last);
      DecimalIs(10 * v + DigitValue(last));
      assert (10 * v + DigitValue(last)) / 10 == v && (10 * v + DigitValue(last)) % 10 == DigitValue(last);
      assert s == init + [last];
    } else {
      assert s == [last];
      DecimalIs(DigitValue(last));
    }
  }

  lemma SmallDecimal(n: nat)
    requires n <= 255
    ensures 1 <= |Decimal(n)| <= 3 && (|Decimal(n)| > 1 ==> Decimal(n)[0] != '0')
  {
    DecimalIs(n);
    DecimalIs(n / 10);
    DecimalIs(n / 10 / 10);
  }

  lemma OctetsAre(s: string)
    ensures IsOctet(s) <==> exists n: nat :: n <= 255 && s == Decimal(n)
  {
    if IsOctet(s) {
      DecimalBack(s);
      assert DecimalValue(s) <= 255;
    }
    if n: nat :| n <= 255 && s == Decimal(n) {
      SmallDecimal(n);
      DecimalRoundTrip(n);
    }
  }

  // ---------------------------------------------------------------- addresses

  lemma FourOctets(fields: seq<string>)
    requires |fields| == 4
    ensures (forall f :: f in fields ==> IsOctet(f)) <==>
            IsOctet(fields[0]) && IsOctet(fields[1]) && IsOctet(fields[2]) && IsOctet(fields[3])
  {
    hide IsOctet;
    assert fields[0] in fields && fields[1] in fields && fields[2] in fields && fields[3] in fields;
  }

  lemma JoinFour(fields: seq<string>)
    requires |fields| == 4
    ensures Join(fields, '.') == fields[0] + "." + fields[1] + "." + fields[2] + "." + fields[3]
  {
    hide Join;
    var c, b, a := [fields[3]], fields[2..], fields[1..];
    assert b == [fields[2]] + c && a == [fields[1]] + b && fields == [fields[0]] + a;
    JoinOne(fields[3], '.');
    JoinCons(fields[2], c, '.');
    JoinCons(fields[1], b, '.');
    JoinCons(fields[0], a, '.');
  }

  lemma QuadParts(host: string) returns (a: nat, b: nat, c: nat, d: nat)
    requires IsIPv4(host)
    ensures a <= 255 && b <= 255 && c <= 255 && d <= 255 && host == Quad(a, b, c, d)
  {
    var fields := Split(host, '.');
    FourOctets(fields);
    OctetsAre(fields[0]);
    OctetsAre(fields[1]);
    OctetsAre(fields[2]);
    OctetsAre(fields[3]);
    JoinOfSplit(host, '.');
    JoinFour(fields);
    hide IsOctet, Split, Join, Decimal;
    a :| a <= 255 && fields[0] == Decimal(a);
    b :| b <= 255 && fields[1] == Decimal(b);
    c :| c <= 255 && fields[2] == Decimal(c);
    d :| d <= 255 && fields[3] == Decimal(d);
  }

  lemma DigitsHaveNoDot(fields: seq<string>)
    requires forall k :: 0 <= k < |fields| ==> AllDigits(fields[k])
    ensures forall f :: f in fields ==> '.' !in f
  {
  }

  lemma QuadSplits(fields: seq<string>, a: nat, b: nat, c: nat, d: nat)
    requires a <= 255 && b <= 255 && c <= 255 && d <= 255
    requires |fields| == 4 && fields[0] == Decimal(a) && fields[1] == Decimal(b)
    requires fields[2] == Decimal(c) && fields[3] == Decimal(d)
    ensures IsIPv4(Quad(a, b, c, d))
  {
    hide Decimal, Split, Join, IsOctet;
    DigitsHaveNoDot(fields);
    SplitOfJoin(fields, '.');
    JoinFour(fields);
    OctetsAre(fields[0]);
    OctetsAre(fields[1]);
    OctetsAre(fields[2]);
    OctetsAre(fields[3]);
    FourOctets(fields);
  }

  lemma QuadIff(host: string)
    ensures IsIPv4(host) <==> DottedQuad(host)
  {
    hide IsIPv4, Quad;
    if IsIPv4(host) {
      var a, b, c, d := QuadParts(host);
    }
    if a: nat, b: nat, c: nat, d: nat :| a <= 255 && b <= 255 && c <= 255 && d <= 255 && host == Quad(a, b, c, d) {
      QuadSplits([Decimal(a), Decimal(b), Decimal(c), Decimal(d)], a, b, c, d);
    }
  }

  /**
    * A name in small letters is a hostname exactly if it is two or more labels of the DNS with
    * dots between them, no longer than 253, and not an IPv4 address.
    */
  lemma HostnamesAre(host: string)
    ensures Acceptable(host) <==>
            && |host| <= 253 && !DottedQuad(host)
            && exists labels: seq<string> ::
                 Dotted(host, labels) && |labels| >= 2 && forall k :: 0 <= k < |labels| ==> DnsLabel(labels[k])
  {
    QuadIff(host);
    if Acceptable(host) {
      var labels := Split(host, '.');
      JoinOfSplit(host, '.');
      forall k | 0 <= k < |labels|
        ensures DnsLabel(labels[k])
      {
        LabelsAre(labels[k]);
      }
      hide IsIPv4, DottedQuad, Join, Split, IsLabel, DnsLabel;
      assert Dotted(host, labels);
    }
    if labels: seq<string> :|
      Dotted(host, labels) && |labels| >= 2 && forall k :: 0 <= k < |labels| ==> DnsLabel(labels[k])
    {
      if |host| <= 253 && !DottedQuad(host) {
        DottedIsAcceptable(host, labels);
      }
    }
  }

  lemma DnsLabelHasNoDot(l: string)
    requires DnsLabel(l)
    ensures '.' !in l && forall c :: c in l ==> !Forbidden(c)
  {
  }

  lemma DottedIsAcceptable(host: string, labels: seq<string>)
    requires Dotted(host, labels) && |labels| >= 2 && forall k :: 0 <= k < |labels| ==> DnsLabel(labels[k])
    requires |host| <= 253 && !IsIPv4(host)
    ensures Acceptable(host)
  {
    forall k | 0 <= k < |labels|
      ensures '.' !in labels[k] && IsLabel(labels[k]) && forall c :: c in labels[k] ==> !Forbidden(c)
    {
      DnsLabelHasNoDot(labels[k]);
      LabelsAre(labels[k]);
    }
    hide DnsLabel, IsLabel, IsIPv4, Forbidden, Join, Split;
    assert forall p :: p in labels ==> '.' !in p;
    SplitOfJoin(labels, '.');
    JoinedChars(labels);
    assert host != "" by {
      if host == "" {
        SplitStart("", '.');
      }
    }
  }

  lemma {:induction false} JoinedChars(labels: seq<string>)
    requires |labels| > 0 && forall k :: 0 <= k < |labels| ==> forall c :: c in labels[k] ==> !Forbidden(c)
    ensures forall c :: c in Join(labels, '.') ==> !Forbidden(c)
  {
    if |labels| > 1 {
      assert forall k :: 0 <= k < |labels[1..]| ==> labels[1..][k] == labels[k + 1];
      JoinedChars(labels[1..]);
    }
  }

  // ---------------------------------------------------------------- spellings

  /** A hostname is stored the same in any letter case, with white space around it or a final dot. */
  lemma EverySpellingIsStored(host: string, name: string, before: string, after: string)
    requires Acceptable(host) && ToLower(name) == host && AllSpaces(before) && AllSpaces(after)
    ensures NormalizeHostname(before + name + after) == Some(host)
    ensures NormalizeHostname(before + name + ".") == Some(host)
  {
    SpellingIsPlain(name, host);
    assert name[0] in name && name[|name| - 1] in name;
    var raw := before + name + after;
    assert raw[|raw| - 1] == if after == "" then name[|name| - 1] else after[|after| - 1];
    assert after != "" ==> after[|after| - 1] in after;
    assert raw[|raw| - 1..][0] == raw[|raw| - 1];
    assert TrimSuffix(raw, ".") == raw;
    Trims(before, name, after);
    var dotted := before + name + ".";
    assert dotted[|dotted| - 1..] == "." && dotted[..|dotted| - 1] == before + name + "";
    Trims(before, name, "");
    hide Acceptable, TrimSpace, ToLower;
  }

  lemma Trims(before: string, core: string, after: string)
    requires AllSpaces(before) && AllSpaces(after) && core != "" && !IsSpace(core[0]) && !IsSpace(core[|core| - 1])
    ensures TrimSpace(before + core + after) == core
  {
    assert before + core + after == before + (core + after) && (core + after)[0] == core[0];
    TrimLeftDrops(before, core + after);
    TrimRightDrops(core, after);
    hide TrimLeft, TrimRight;
  }

  predicate NoMarks(s: string) {
    ':' !in s && '[' !in s && ']' !in s
  }

  /**
    * A host and a port are told apart exactly if the host is plain, or in brackets and then
    * free of brackets itself, and the port has no colon or bracket.
    */
  lemma SplitsIff(h: string, host: string)
    ensures SplitHost(h) == Some(host) <==>
            exists port ::
              NoMarks(port) && ((NoMarks(host) && h == host + ":" + port)
                                || ('[' !in host && ']' !in host && h == "[" + host + "]:" + port))
  {
    if SplitHost(h) == Some(host) {
      SplitsOnce(h, host);
    }
    if port :| NoMarks(port) && NoMarks(host) && h == host + ":" + port {
      PlainSplits(host, port);
    }
    if port :| NoMarks(port) && '[' !in host && ']' !in host && h == "[" + host + "]:" + port {
      BracketSplits(host, port);
    }
  }

  lemma LastColon(h: string)
    requires LastIndex(h, ':') >= 0
    ensures var i := LastIndex(h, ':'); h == h[..i] + ":" + h[i + 1..] && ':' !in h[i + 1..]
  {
    NoneBehindLast(h, ':');
  }

  lemma {:induction false} NoneBehindLast(s: string, c: char)
    ensures LastIndex(s, c) >= 0 ==> c !in s[LastIndex(s, c) + 1..]
  {
    if s != "" && s[|s| - 1] != c {
      NoneBehindLast(s[..|s| - 1], c);
      if LastIndex(s, c) >= 0 {
        assert s[LastIndex(s, c) + 1..] == s[..|s| - 1][LastIndex(s, c) + 1..] + [s[|s| - 1]];
      }
    }
  }

  lemma SplitsOnce(h: string, host: string)
    requires SplitHost(h) == Some(host)
    ensures exists port ::
              NoMarks(port) && ((NoMarks(host) && h == host + ":" + port)
                                || ('[' !in host && ']' !in host && h == "[" + host + "]:" + port))
  {
    LastColon(h);
    var i, end := LastIndex(h, ':'), Find(h, ']');
    hide LastIndex, Find;
    if h[0] == '[' {
      assert h[end + 1..][0] == ':';
      BracketPieces(h, end);
    } else {
      PlainPieces(h, i);
    }
    hide NoMarks;
  }

  lemma BracketPieces(h: string, end: nat)
    requires 0 < end && end + 1 < |h| && h[0] == '[' && h[end] == ']' && h[end + 1] == ':'
    requires '[' !in h[1..] && ']' !in h[..end] && ']' !in h[end + 1..] && ':' !in h[end + 2..]
    ensures NoMarks(h[end + 2..]) && '[' !in h[1..end] && ']' !in h[1..end]
    ensures h == "[" + h[1..end] + "]:" + h[end + 2..]
  {
    var inner, port := h[1..end], h[end + 2..];
    assert forall k :: 0 <= k < |port| ==> port[k] == h[1..][end + 1 + k] == h[end + 1..][1 + k];
    assert forall k :: 0 <= k < |inner| ==> inner[k] == h[1..][k] == h[..end][1 + k];
  }

  lemma PlainPieces(h: string, i: nat)
    requires i < |h| && ':' !in h[..i] && ':' !in h[i + 1..] && '[' !in h && ']' !in h
    ensures NoMarks(h[i + 1..]) && NoMarks(h[..i])
  {
    var host, port := h[..i], h[i + 1..];
    assert forall k :: 0 <= k < |host| ==> host[k] == h[k];
    assert forall k :: 0 <= k < |port| ==> port[k] == h[i + 1 + k];
  }

  lemma PlainSplits(host: string, port: string)
    requires NoMarks(host) && NoMarks(port)
    ensures SplitHost(host + ":" + port) == Some(host)
  {
    LastIndexAt(host, port, ':');
    hide LastIndex, Find;
    var h := host + ":" + port;
    assert h == host + [':'] + port && h[..|host|] == host;
    assert forall c :: c in h ==> c in host || c == ':' || c in port;
    assert host != "" ==> h[0] == host[0] && host[0] in host;
  }

  lemma BracketSplits(inner: string, port: string)
    requires '[' !in inner && ']' !in inner && NoMarks(port)
    ensures SplitHost("[" + inner + "]:" + port) == Some(inner)
  {
    hide Find, LastIndex;
    var h := "[" + inner + "]:" + port;
    LastIndexAt("[" + inner + "]", port, ':');
    assert h == "[" + inner + "]" + [':'] + port;
    FindAt("[" + inner, ":" + port, ']');
    assert h == "[" + inner + [']'] + (":" + port);
    assert h[1..|inner| + 1] == inner && h[1..] == inner + "]:" + port && h[|inner| + 2..] == ":" + port;
  }

  /** What a header may hold that is no hostname: an address in brackets, with or without a port. */
  lemma BracketedIsFound(inner: string, port: string)
    requires '[' !in inner && ']' !in inner && inner != "" && !IsSpace(inner[0]) && AllDigits(port)
    requires inner[|inner| - 1] != '.'
    ensures HostFromHostPort("[" + inner + "]:" + port) == ToLower(inner)
    ensures ':' in inner ==> HostFromHostPort("[" + inner + "]") == ToLower(inner)
  {
    NoDot(inner);
    WithPort(inner, port);
    if ':' in inner {
      WithoutPort(inner);
    }
  }

  lemma NoDot(s: string)
    requires s != "" && s[|s| - 1] != '.'
    ensures TrimSuffix(s, ".") == s
  {
    assert s[|s| - 1..][0] == s[|s| - 1];
  }

  /** The parts net.SplitHostPort finds. */
  lemma BracketParts(inner: string, port: string)
    requires '[' !in inner && ']' !in inner && AllDigits(port)
    ensures var h := "[" + inner + "]:" + port;
            && LastIndex(h, ':') == |inner| + 2 && Find(h, ']') == |inner| + 1
            && h != "" && h[0] == '[' && h[1..|inner| + 1] == inner
            && '[' !in h[1..] && ']' !in h[|inner| + 2..] && Trimmed(h)
  {
    hide Find, LastIndex;
    var h := "[" + inner + "]:" + port;
    assert h[|h| - 1] == ':' || IsDigit(h[|h| - 1]) by {
      assert port != "" ==> h[|h| - 1] == port[|port| - 1] && port[|port| - 1] in port;
    }
    LastIndexAt("[" + inner + "]", port, ':');
    assert h == "[" + inner + "]" + [':'] + port;
    FindAt("[" + inner, ":" + port, ']');
    assert h == "[" + inner + [']'] + (":" + port);
    assert h[1..|inner| + 1] == inner && h[1..] == inner + "]:" + port && h[|inner| + 2..] == ":" + port;
  }

  lemma WithPort(inner: string, port: string)
    requires '[' !in inner && ']' !in inner && inner != "" && AllDigits(port)
    ensures HostFromHostPort("[" + inner + "]:" + port) == ToLower(TrimSuffix(inner, "."))
  {
    var h := "[" + inner + "]:" + port;
    BracketParts(inner, port);
    TrimSpaceFixes(h);
    hide TrimSuffix, Find, LastIndex, TrimSpace, Trimmed, TrimBrackets, ToLower;
    assert SplitHost(h) == Some(inner);
  }

  lemma {:induction false} BracketsTrim(s: string)
    requires '[' !in s && ']' !in s && s != ""
    ensures TrimBrackets("[" + s + "]") == s
  {
    assert s[0] in s && s[|s| - 1] in s;
    assert ("[" + s + "]")[1..] == s + "]" && (s + "]")[..|s|] == s;
    assert TrimBrackets(s) == s;
    assert TrimBrackets(s + "]") == s;
  }

  lemma WithoutPort(inner: string)
    requires '[' !in inner && ']' !in inner && inner != "" && ':' in inner
    ensures HostFromHostPort("[" + inner + "]") == ToLower(TrimSuffix(inner, "."))
  {
    var h := "[" + inner + "]";
    TrimSpaceFixes(h);
    BracketsTrim(inner);
    FindAt("[" + inner, "", ']');
    assert h == "[" + inner + [']'] + "";
    hide TrimSuffix, Find, TrimBrackets, TrimSpace;
    var i := LastIndex(h, ':');
    assert i < |inner| + 1;
    assert SplitHost(h).None?;
  }
}
