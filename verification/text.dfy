/**
  * The string operations the gateway is built from, over ASCII strings: trimming, case
  * folding, splitting and joining, and printing and parsing decimal numbers.
  */
module Text {
  import opened Basics

  // ---------------------------------------------------------------- trimming and case

  predicate IsSpace(c: char) {
    c == ' ' || c == '\t' || c == '\n' || c == '\U{B}' || c == '\U{C}' || c == '\r'
  }

  function TrimLeft(s: string): string {
    if s != [] && IsSpace(s[0]) then TrimLeft(s[1..]) else s
  }

  function TrimRight(s: string): string {
    if s != [] && IsSpace(s[|s| - 1]) then TrimRight(s[..|s| - 1]) else s
  }

  function TrimSpace(s: string): string {
    TrimRight(TrimLeft(s))
  }

  predicate Trimmed(s: string) {
    s != [] ==> !IsSpace(s[0]) && !IsSpace(s[|s| - 1])
  }

  lemma {:induction false} TrimLeftResult(s: string)
    ensures TrimLeft(s) != [] ==> !IsSpace(TrimLeft(s)[0])
    ensures |TrimLeft(s)| <= |s|
  {
    if s != [] && IsSpace(s[0]) {
      TrimLeftResult(s[1..]);
    }
  }

  lemma {:induction false} TrimRightResult(s: string)
    ensures TrimRight(s) <= s
    ensures TrimRight(s) != [] ==> !IsSpace(TrimRight(s)[|TrimRight(s)| - 1])
  {
    if s != [] && IsSpace(s[|s| - 1]) {
      TrimRightResult(s[..|s| - 1]);
    }
  }

  lemma TrimSpaceTrims(s: string)
    ensures Trimmed(TrimSpace(s))
  {
    TrimLeftResult(s);
    TrimRightResult(TrimLeft(s));
  }

  lemma TrimSpaceFixes(s: string)
    requires Trimmed(s)
    ensures TrimSpace(s) == s
  {
  }

  /** strings.TrimRight(s, "/") */
  function TrimSlashes(s: string): string {
    if s != [] && s[|s| - 1] == '/' then TrimSlashes(s[..|s| - 1]) else s
  }

  lemma {:induction false} TrimSlashesResult(s: string)
    ensures TrimSlashes(s) <= s
    ensures TrimSlashes(s) != [] ==> TrimSlashes(s)[|TrimSlashes(s)| - 1] != '/'
  {
    if s != [] && s[|s| - 1] == '/' {
      TrimSlashesResult(s[..|s| - 1]);
    }
  }

  function LowerChar(c: char): char {
    if 'A' <= c <= 'Z' then (c as int + 32) as char else c
  }

  function ToLower(s: string): (r: string)
    ensures |r| == |s|
    ensures forall i :: 0 <= i < |s| ==> r[i] == LowerChar(s[i])
  {
    seq(|s|, i requires 0 <= i < |s| => LowerChar(s[i]))
  }

  predicate HasSuffix(s: string, suffix: string) {
    |suffix| <= |s| && s[|s| - |suffix|..] == suffix
  }

  function TrimSuffix(s: string, suffix: string): string {
    if HasSuffix(s, suffix) then s[..|s| - |suffix|] else s
  }

  // ---------------------------------------------------------------- splitting and joining

  /** strings.Split on a one-character separator. */
  function Split(s: string, sep: char): (parts: seq<string>)
    ensures |parts| > 0
    ensures forall p :: p in parts ==> sep !in p
  {
    if s == [] then [[]]
    else if s[0] == sep then [[]] + Split(s[1..], sep)
    else
      var rest := Split(s[1..], sep);
      [[s[0]] + rest[0]] + rest[1..]
  }

  /** strings.Join with a one-character separator. */
  function Join(parts: seq<string>, sep: char): string
    requires |parts| > 0
  {
    if |parts| == 1 then parts[0] else parts[0] + [sep] + Join(parts[1..], sep)
  }

  lemma {:induction false} SplitWhole(s: string, sep: char)
    requires sep !in s
    ensures Split(s, sep) == [s]
  {
    if s != [] {
      SplitWhole(s[1..], sep);
      assert [s[0]] + s[1..] == s;
    }
  }

  lemma SplitStart(b: string, sep: char)
    ensures Split([sep] + b, sep) == [[]] + Split(b, sep)
    ensures Split([], sep) == [[]]
  {
    assert ([sep] + b)[1..] == b;
  }

  lemma SplitCons(c: char, s: string, sep: char)
    ensures Split([c] + s, sep) == if c == sep then [[]] + Split(s, sep)
                                   else [[c] + Split(s, sep)[0]] + Split(s, sep)[1..]
  {
    assert ([c] + s)[0] == c && ([c] + s)[1..] == s;
  }

  lemma {:induction false} SplitConcat(a: string, b: string, sep: char)
    ensures Split(a + [sep] + b, sep) == Split(a, sep) + Split(b, sep)
  {
    hide Split;
    SplitStart(b, sep);
    if a == [] {
      assert a + [sep] + b == [sep] + b;
    } else {
      var c, rest := a[0], a[1..];
      SplitConcat(rest, b, sep);
      SplitCons(c, rest, sep);
      SplitCons(c, rest + [sep] + b, sep);
      assert [c] + rest == a && [c] + (rest + [sep] + b) == a + [sep] + b;
      PutInFront(c, Split(rest, sep), Split(b, sep));
    }
  }

  /** A character, or an empty part, in front of two lists of parts. */
  lemma PutInFront(c: char, a: seq<string>, b: seq<string>)
    requires a != []
    ensures [[]] + (a + b) == [[]] + a + b
    ensures [[c] + (a + b)[0]] + (a + b)[1..] == [[c] + a[0]] + a[1..] + b
  {
    assert (a + b)[1..] == a[1..] + b;
  }

  lemma {:induction false} SplitOfJoin(parts: seq<string>, sep: char)
    requires |parts| > 0 && forall p :: p in parts ==> sep !in p
    ensures Split(Join(parts, sep), sep) == parts
  {
    SplitWhole(parts[0], sep);
    if |parts| > 1 {
      SplitOfJoin(parts[1..], sep);
      SplitConcat(parts[0], Join(parts[1..], sep), sep);
    }
  }

  lemma JoinOne(s: string, sep: char)
    ensures Join([s], sep) == s
  {
  }

  lemma JoinCons(first: string, rest: seq<string>, sep: char)
    requires rest != []
    ensures Join([first] + rest, sep) == first + [sep] + Join(rest, sep)
  {
    assert ([first] + rest)[1..] == rest;
  }

  /** Joining undoes splitting. */
  lemma {:induction false} JoinOfSplit(s: string, sep: char)
    ensures Join(Split(s, sep), sep) == s
    decreases |s|
  {
    hide Split, Join;
    var k := Find(s, sep);
    if k == |s| {
      assert s[..k] == s;
      SplitWhole(s, sep);
      JoinOne(s, sep);
    } else {
      var a, b := s[..k], s[k + 1..];
      assert s == a + [sep] + b;
      SplitConcat(a, b, sep);
      SplitWhole(a, sep);
      JoinOfSplit(b, sep);
      JoinCons(a, Split(b, sep), sep);
    }
  }

  /** Every character but the separator lies in some part. */
  lemma {:induction false} SplitChar(s: string, sep: char, c: char) returns (part: string)
    requires c in s && c != sep
    ensures part in Split(s, sep) && c in part
  {
    var k := Find(s, sep);
    if k == |s| {
      SplitWhole(s, sep);
      part := s;
    } else {
      assert s == s[..k] + [sep] + s[k + 1..];
      SplitConcat(s[..k], s[k + 1..], sep);
      SplitWhole(s[..k], sep);
      if c in s[..k] {
        part := s[..k];
      } else {
        part := SplitChar(s[k + 1..], sep, c);
      }
    }
  }

  /** The last part ends as the string does. */
  lemma {:induction false} SplitLast(s: string, sep: char)
    requires s != []
    ensures var last := Split(s, sep)[|Split(s, sep)| - 1];
            if s[|s| - 1] == sep then last == [] else last != [] && last[|last| - 1] == s[|s| - 1]
  {
    SplitStart([], sep);
    hide Split;
    var k := Find(s, sep);
    if k == |s| {
      SplitWhole(s, sep);
    } else {
      assert s == s[..k] + [sep] + s[k + 1..];
      SplitConcat(s[..k], s[k + 1..], sep);
      if k + 1 < |s| {
        SplitLast(s[k + 1..], sep);
      }
    }
  }

  /** strings.SplitN: at most `n` parts, the last one unsplit. */
  function SplitN(s: string, sep: char, n: nat): (parts: seq<string>)
    requires n > 0
    ensures 0 < |parts| <= n
    decreases |s|
  {
    var k := Find(s, sep);
    if n == 1 || k == |s| then [s] else [s[..k]] + SplitN(s[k + 1..], sep, n - 1)
  }

  /** Index of the first occurrence, or the length when there is none. */
  function Find(s: string, c: char): (k: nat)
    ensures k <= |s| && c !in s[..k]
    ensures k < |s| ==> s[k] == c
  {
    if s == [] then 0
    else if s[0] == c then 0
    else
      var k := Find(s[1..], c);
      assert s[..1 + k] == [s[0]] + s[1..][..k];
      1 + k
  }

  lemma FindAt(a: string, b: string, c: char)
    requires c !in a
    ensures Find(a + [c] + b, c) == |a|
  {
    var s := a + [c] + b;
    assert s[|a|] == c && forall i :: 0 <= i < |a| ==> s[i] == a[i];
    assert forall k :: |a| < k <= |s| ==> s[..k][|a|] == c;
  }

  lemma FindNone(s: string, c: char)
    requires c !in s
    ensures Find(s, c) == |s|
  {
  }

  /** Index of the last occurrence, or -1 when there is none. */
  function LastIndex(s: string, c: char): (k: int)
    ensures -1 <= k < |s| && (k >= 0 ==> s[k] == c)
  {
    if s == [] then -1
    else if s[|s| - 1] == c then |s| - 1
    else LastIndex(s[..|s| - 1], c)
  }

  lemma LastIndexIs(s: string, c: char, k: nat)
    requires k < |s| && s[k] == c && c !in s[k + 1..]
    ensures LastIndex(s, c) == k
  {
    if s[|s| - 1] != c {
      assert s[..|s| - 1][k + 1..] == s[k + 1..][..|s| - k - 2];
      LastIndexIs(s[..|s| - 1], c, k);
    }
  }

  lemma LastIndexAt(a: string, b: string, c: char)
    requires c !in b
    ensures LastIndex(a + [c] + b, c) == |a|
  {
    hide LastIndex;
    var s := a + [c] + b;
    assert s[|a|] == c && s[|a| + 1..] == b;
    LastIndexIs(s, c, |a|);
  }

  /** The first part of a split is what stands before the first separator. */
  lemma SplitNCons(a: string, b: string, sep: char, n: nat)
    requires sep !in a && n > 1
    ensures SplitN(a + [sep] + b, sep, n) == [a] + SplitN(b, sep, n - 1)
  {
    var s := a + [sep] + b;
    FindAt(a, b, sep);
    assert s[..|a|] == a && s[|a| + 1..] == b;
  }

  // ---------------------------------------------------------------- decimal numbers

  predicate IsDigit(c: char) {
    '0' <= c <= '9'
  }

  function Digit(d: nat): (c: char)
    requires d < 10
    ensures IsDigit(c) && DigitValue(c) == d
  {
    ('0' as int + d) as char
  }

  function DigitValue(c: char): nat
    requires IsDigit(c)
  {
    c as int - '0' as int
  }

  function Decimal(n: nat): (s: string)
    ensures s != [] && forall c :: c in s ==> IsDigit(c)
  {
    if n < 10 then [Digit(n)] else Decimal(n / 10) + [Digit(n % 10)]
  }

  predicate AllDigits(s: string) {
    forall c :: c in s ==> IsDigit(c)
  }

  function DecimalValue(s: string): nat
    requires AllDigits(s)
  {
    if s == [] then 0 else 10 * DecimalValue(s[..|s| - 1]) + DigitValue(s[|s| - 1])
  }

  lemma {:induction false} DecimalRoundTrip(n: nat)
    ensures DecimalValue(Decimal(n)) == n
  {
    if n >= 10 {
      DecimalRoundTrip(n / 10);
      assert Decimal(n)[..|Decimal(n)| - 1] == Decimal(n / 10);
    } else {
      assert Decimal(n)[..0] == [];
    }
  }

  lemma DecimalInjective(m: nat, n: nat)
    requires Decimal(m) == Decimal(n)
    ensures m == n
  {
    DecimalRoundTrip(m);
    DecimalRoundTrip(n);
  }

  const INT64_MAX: int := 0x7FFF_FFFF_FFFF_FFFF
  const INT64_MIN: int := -0x8000_0000_0000_0000

  /** fmt's %d of a signed number. */
  function PrintInt(n: int): string {
    if n < 0 then ['-'] + Decimal(-n) else Decimal(n)
  }

  /** strconv.ParseInt(s, 10, 64): an optional sign, at least one digit, in range. */
  function ParseInt64(s: string): Option<int> {
    var signed := s != [] && (s[0] == '-' || s[0] == '+');
    var digits := if signed then s[1..] else s;
    if digits == [] || !AllDigits(digits) then None
    else
      var value: int := DecimalValue(digits);
      var n := if signed && s[0] == '-' then -value else value;
      if INT64_MIN <= n <= INT64_MAX then Some(n) else None
  }

  lemma ParsePrint(n: int)
    requires INT64_MIN <= n <= INT64_MAX
    ensures ParseInt64(PrintInt(n)) == Some(n)
  {
    hide Decimal, DecimalValue;
    if n < 0 {
      DecimalRoundTrip(-n);
      assert PrintInt(n)[1..] == Decimal(-n);
    } else {
      DecimalRoundTrip(n);
      assert IsDigit(Decimal(n)[0]);
    }
  }

  lemma PrintIntChars(n: int)
    ensures forall c :: c in PrintInt(n) ==> c == '-' || IsDigit(c)
  {
  }
}
