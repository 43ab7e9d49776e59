/**
  * The three signed tokens: sessions, pending second factors, and pending enrolments.  Each is
  * a list of fields separated by bars, followed by a MAC over them, in base64url.  The MAC is a
  * function from payloads to hex strings; where it matters it is assumed injective.
  */
module Tokens {
  import opened Basics
  import opened Text
  import opened ServicePaths
  import opened Base64Url

  type Mac = string -> string

  predicate IsHex(s: string) {
    forall c :: c in s ==> IsDigit(c) || 'a' <= c <= 'f'
  }

  ghost predicate HexMac(mac: Mac) {
    forall p :: IsHex(mac(p))
  }

  ghost predicate Injective(mac: Mac) {
    forall p, q :: mac(p) == mac(q) ==> p == q
  }

  /** A field as the gateway fills it in: bytes without a bar. */
  predicate IsField(s: string) {
    forall c :: c in s ==> c != '|' && IsByte(c)
  }

  predicate AllFields(fields: seq<string>) {
    forall f :: f in fields ==> IsField(f)
  }

  // ---------------------------------------------------------------- the code

  function SessionPayload(user: string, expiry: int, rev: string): string {
    user + "|" + PrintInt(expiry) + "|" + rev
  }

  function PendingPayload(user: string, expiry: int, rev: string): string {
    "2fa|" + user + "|" + PrintInt(expiry) + "|" + rev
  }

  function SetupPayload(user: string, secret: string, expiry: int): string {
    "setup|" + user + "|" + secret + "|" + PrintInt(expiry)
  }

  function Signed(mac: Mac, payload: string): string
    requires AllBytes(payload + "|" + mac(payload))
  {
    Encode(payload + "|" + mac(payload))
  }

  /** The fields of a token, if it decodes and has at least as many. */
  function Fields(token: string, n: nat): (r: Option<seq<string>>)
    requires n > 0
    ensures r.Some? ==> |r.value| == n
  {
    var decoded := Decode(token);
    if decoded.None? then None
    else
      var parts := SplitN(decoded.value, '|', n);
      if |parts| != n then None else Some(parts)
  }

  datatype Session = Session(user: string, expiry: int)

  function ValidateSession(mac: Mac, token: string, rev: string, now: int): Option<Session> {
    var parts := Fields(token, 4);
    if parts.None? then None
    else
      var user, expiry, sig := parts.value[0], ParseInt64(parts.value[1]), parts.value[3];
      if expiry.None? || user == "" then None
      else if sig != mac(SessionPayload(user, expiry.value, rev)) then None
      else if now > expiry.value then None
      else Some(Session(user, expiry.value))
  }

  function ValidatePending(mac: Mac, token: string, rev: string, now: int): Option<string> {
    var parts := Fields(token, 5);
    if parts.None? || parts.value[0] != "2fa" then None
    else
      var user, expiry, sig := parts.value[1], ParseInt64(parts.value[2]), parts.value[4];
      if expiry.None? || now > expiry.value then None
      else if sig != mac(PendingPayload(user, expiry.value, rev)) then None
      else Some(user)
  }

  datatype Setup = Setup(user: string, secret: string)

  function ValidateSetup(mac: Mac, token: string, now: int): Option<Setup> {
    var parts := Fields(token, 5);
    if parts.None? || parts.value[0] != "setup" then None
    else
      var user, secret, expiry, sig := parts.value[1], parts.value[2], ParseInt64(parts.value[3]), parts.value[4];
      if expiry.None? || now > expiry.value then None
      else if sig != mac(SetupPayload(user, secret, expiry.value)) then None
      else Some(Setup(user, secret))
  }

  // ---------------------------------------------------------------- fields

  lemma SplitNWhole(s: string, n: nat)
    requires n > 0 && (n == 1 || '|' !in s)
    ensures SplitN(s, '|', n) == [s]
  {
    if n > 1 {
      FindNone(s, '|');
    }
  }

  lemma JoinFirst(fields: seq<string>)
    requires |fields| > 1
    ensures Join(fields, '|') == fields[0] + ['|'] + Join(fields[1..], '|')
  {
  }

  /** Splitting what was joined gives the fields back, the last ones together if there are too many. */
  lemma {:induction false} SplitNOfJoin(fields: seq<string>, n: nat)
    requires |fields| > 0 && n > 0 && AllFields(fields)
    ensures SplitN(Join(fields, '|'), '|', n) ==
              if |fields| <= n then fields else fields[..n - 1] + [Join(fields[n - 1..], '|')]
    decreases n
  {
    hide SplitN, Join;
    var rest := fields[1..];
    assert fields[0] in fields && forall f :: f in rest ==> f in fields;
    if |fields| == 1 {
      JoinOne(fields[0], '|');
      assert fields == [fields[0]];
      SplitNWhole(fields[0], n);
    } else if n == 1 {
      SplitNWhole(Join(fields, '|'), 1);
      assert fields[..0] + [Join(fields[0..], '|')] == [Join(fields, '|')] by {
        assert fields[0..] == fields;
      }
    } else {
      JoinFirst(fields);
      SplitNCons(fields[0], Join(rest, '|'), '|', n);
      SplitNOfJoin(rest, n - 1);
      assert fields == [fields[0]] + rest;
      if |fields| > n {
        assert rest[n - 2..] == fields[n - 1..] && [fields[0]] + rest[..n - 2] == fields[..n - 1];
      }
    }
  }

  lemma {:induction false} JoinBytes(fields: seq<string>)
    requires |fields| > 0 && AllFields(fields)
    ensures AllBytes(Join(fields, '|'))
  {
    assert fields[0] in fields && forall f :: f in fields[1..] ==> f in fields;
    if |fields| > 1 {
      JoinBytes(fields[1..]);
    }
  }

  lemma NumberIsField(n: int)
    ensures IsField(PrintInt(n))
  {
    PrintIntChars(n);
    hide PrintInt;
  }

  lemma HexIsField(s: string)
    requires IsHex(s)
    ensures IsField(s)
  {
  }

  lemma UsernameIsField(user: string)
    requires IsValidUsername(user)
    ensures IsField(user) && user != "" && ParseInt64(user).None?
  {
    assert user[0] in user && !IsDigit(user[0]);
    hide DecimalValue;
  }

  lemma JoinTwo(a: string, b: string)
    ensures Join([a, b], '|') == a + "|" + b
  {
    assert [a, b][1..] == [b];
  }

  /** A signed token holds its payload's fields and the MAC. */
  lemma SignedFields(mac: Mac, fields: seq<string>, n: nat)
    requires HexMac(mac) && |fields| > 0 && AllFields(fields) && n > 0
    ensures var payload, all := Join(fields, '|'), fields + [mac(Join(fields, '|'))];
            && AllBytes(payload + "|" + mac(payload))
            && Fields(Signed(mac, payload), n) ==
               if |all| < n then None
               else if |all| == n then Some(all)
               else Some(all[..n - 1] + [Join(all[n - 1..], '|')])
  {
    var payload := Join(fields, '|');
    var all := fields + [mac(payload)];
    HexIsField(mac(payload));
    JoinSnoc(fields, mac(payload));
    JoinBytes(all);
    RoundTrip(Join(all, '|'));
    SplitNOfJoin(all, n);
    hide Decode, Encode, SplitN, Join;
  }

  lemma {:induction false} JoinSnoc(fields: seq<string>, f: string)
    requires |fields| > 0
    ensures Join(fields + [f], '|') == Join(fields, '|') + "|" + f
  {
    if |fields| > 1 {
      JoinSnoc(fields[1..], f);
      assert (fields + [f])[1..] == fields[1..] + [f];
      assert fields[0] + ['|'] + (Join(fields[1..], '|') + "|" + f) == fields[0] + ['|'] + Join(fields[1..], '|') + "|" + f;
    } else {
      JoinTwo(fields[0], f);
      assert fields + [f] == [fields[0], f];
    }
  }

  // ---------------------------------------------------------------- payloads as fields

  function SessionFields(user: string, expiry: int, rev: string): seq<string> {
    [user, PrintInt(expiry), rev]
  }

  function PendingFields(user: string, expiry: int, rev: string): seq<string> {
    ["2fa", user, PrintInt(expiry), rev]
  }

  function SetupFields(user: string, secret: string, expiry: int): seq<string> {
    ["setup", user, secret, PrintInt(expiry)]
  }

  lemma JoinThree(a: string, b: string, c: string)
    ensures Join([a, b, c], '|') == a + "|" + b + "|" + c
  {
    JoinFirst([a, b, c]);
    JoinTwo(b, c);
    assert [a, b, c][1..] == [b, c];
    assert a + ['|'] + (b + "|" + c) == a + "|" + b + "|" + c;
  }

  lemma JoinFour(a: string, b: string, c: string, d: string)
    ensures Join([a, b, c, d], '|') == a + "|" + b + "|" + c + "|" + d
  {
    JoinFirst([a, b, c, d]);
    JoinThree(b, c, d);
    assert [a, b, c, d][1..] == [b, c, d];
    assert a + ['|'] + (b + "|" + c + "|" + d) == a + "|" + b + "|" + c + "|" + d;
  }

  lemma PayloadsAreFields(user: string, expiry: int, rev: string)
    ensures SessionPayload(user, expiry, rev) == Join(SessionFields(user, expiry, rev), '|')
    ensures PendingPayload(user, expiry, rev) == Join(PendingFields(user, expiry, rev), '|')
    ensures SetupPayload(user, rev, expiry) == Join(SetupFields(user, rev, expiry), '|')
  {
    JoinThree(user, PrintInt(expiry), rev);
    JoinFour("2fa", user, PrintInt(expiry), rev);
    JoinFour("setup", user, rev, PrintInt(expiry));
    hide PrintInt, Join;
    assert "2fa|" + user == "2fa" + "|" + user && "setup|" + user == "setup" + "|" + user;
  }

  lemma FieldsAreFields(user: string, expiry: int, rev: string)
    requires IsValidUsername(user) && IsField(rev)
    ensures AllFields(SessionFields(user, expiry, rev)) && AllFields(PendingFields(user, expiry, rev))
    ensures AllFields(SetupFields(user, rev, expiry))
  {
    UsernameIsField(user);
    NumberIsField(expiry);
    assert IsField("2fa") && IsField("setup");
    hide IsField, PrintInt;
  }

  // ---------------------------------------------------------------- what each token recovers

  predicate InRange(expiry: int) {
    INT64_MIN <= expiry <= INT64_MAX
  }

  /** Tokens can be made for every valid username. */
  lemma CanSign(mac: Mac, user: string, expiry: int, rev: string)
    requires HexMac(mac) && IsValidUsername(user) && IsField(rev)
    ensures AllBytes(SessionPayload(user, expiry, rev) + "|" + mac(SessionPayload(user, expiry, rev)))
    ensures AllBytes(PendingPayload(user, expiry, rev) + "|" + mac(PendingPayload(user, expiry, rev)))
    ensures AllBytes(SetupPayload(user, rev, expiry) + "|" + mac(SetupPayload(user, rev, expiry)))
  {
    PayloadsAreFields(user, expiry, rev);
    FieldsAreFields(user, expiry, rev);
    hide *;
    SignedFields(mac, SessionFields(user, expiry, rev), 1);
    SignedFields(mac, PendingFields(user, expiry, rev), 1);
    SignedFields(mac, SetupFields(user, rev, expiry), 1);
  }

  function CreateSession(mac: Mac, user: string, rev: string, now: int, ttl: int): string
    requires HexMac(mac) && IsValidUsername(user) && IsField(rev)
  {
    CanSign(mac, user, now + ttl, rev);
    Signed(mac, SessionPayload(user, now + ttl, rev))
  }

  function CreatePending(mac: Mac, user: string, rev: string, now: int, ttl: int): string
    requires HexMac(mac) && IsValidUsername(user) && IsField(rev)
  {
    CanSign(mac, user, now + ttl, rev);
    Signed(mac, PendingPayload(user, now + ttl, rev))
  }

  function CreateSetup(mac: Mac, user: string, secret: string, now: int, ttl: int): string
    requires HexMac(mac) && IsValidUsername(user) && IsField(secret)
  {
    CanSign(mac, user, now + ttl, secret);
    Signed(mac, SetupPayload(user, secret, now + ttl))
  }

  /** Each token is its fields, signed. */
  lemma TokensAreSigned(mac: Mac, user: string, text: string, now: int, ttl: int)
    requires HexMac(mac) && IsValidUsername(user) && IsField(text)
    ensures var fields := SessionFields(user, now + ttl, text);
            && AllFields(fields) && SessionPayload(user, now + ttl, text) == Join(fields, '|')
            && AllBytes(Join(fields, '|') + "|" + mac(Join(fields, '|')))
            && CreateSession(mac, user, text, now, ttl) == Signed(mac, Join(fields, '|'))
    ensures var fields := PendingFields(user, now + ttl, text);
            && AllFields(fields) && PendingPayload(user, now + ttl, text) == Join(fields, '|')
            && AllBytes(Join(fields, '|') + "|" + mac(Join(fields, '|')))
            && CreatePending(mac, user, text, now, ttl) == Signed(mac, Join(fields, '|'))
    ensures var fields := SetupFields(user, text, now + ttl);
            && AllFields(fields) && SetupPayload(user, text, now + ttl) == Join(fields, '|')
            && AllBytes(Join(fields, '|') + "|" + mac(Join(fields, '|')))
            && CreateSetup(mac, user, text, now, ttl) == Signed(mac, Join(fields, '|'))
  {
    PayloadsAreFields(user, now + ttl, text);
    FieldsAreFields(user, now + ttl, text);
    CanSign(mac, user, now + ttl, text);
    hide PrintInt, Join, Signed, HexMac, IsValidUsername, IsField, SessionPayload, PendingPayload, SetupPayload, AllFields,
      AllBytes, SessionFields, PendingFields, SetupFields;
  }

  /** What the parsers see of each token. */
  lemma SessionTokenFields(mac: Mac, user: string, rev: string, now: int, ttl: int)
    requires HexMac(mac) && IsValidUsername(user) && IsField(rev)
    ensures var token, sig := CreateSession(mac, user, rev, now, ttl), mac(SessionPayload(user, now + ttl, rev));
            && Fields(token, 4) == Some([user, PrintInt(now + ttl), rev, sig])
            && Fields(token, 5) == None
  {
    hide *;
    TokensAreSigned(mac, user, rev, now, ttl);
    var fields := SessionFields(user, now + ttl, rev);
    FieldLists(user, now + ttl, rev);
    SignedFields(mac, fields, 4);
    SignedFields(mac, fields, 5);
    assert fields + [mac(Join(fields, '|'))] == [user, PrintInt(now + ttl), rev, mac(Join(fields, '|'))];
  }

  lemma FieldLists(user: string, expiry: int, text: string)
    ensures SessionFields(user, expiry, text) == [user, PrintInt(expiry), text]
    ensures PendingFields(user, expiry, text) == ["2fa", user, PrintInt(expiry), text]
    ensures SetupFields(user, text, expiry) == ["setup", user, text, PrintInt(expiry)]
  {
  }

  lemma PendingTokenFields(mac: Mac, user: string, rev: string, now: int, ttl: int)
    requires HexMac(mac) && IsValidUsername(user) && IsField(rev)
    ensures var token, sig := CreatePending(mac, user, rev, now, ttl), mac(PendingPayload(user, now + ttl, rev));
            && Fields(token, 5) == Some(["2fa", user, PrintInt(now + ttl), rev, sig])
            && Fields(token, 4) == Some(["2fa", user, PrintInt(now + ttl), Join([rev, sig], '|')])
  {
    hide *;
    TokensAreSigned(mac, user, rev, now, ttl);
    var fields := PendingFields(user, now + ttl, rev);
    FieldLists(user, now + ttl, rev);
    SignedFields(mac, fields, 5);
    SignedFields(mac, fields, 4);
    LastTwo(fields, mac(Join(fields, '|')));
  }

  lemma SetupTokenFields(mac: Mac, user: string, secret: string, now: int, ttl: int)
    requires HexMac(mac) && IsValidUsername(user) && IsField(secret)
    ensures var token, sig := CreateSetup(mac, user, secret, now, ttl), mac(SetupPayload(user, secret, now + ttl));
            && Fields(token, 5) == Some(["setup", user, secret, PrintInt(now + ttl), sig])
            && Fields(token, 4) == Some(["setup", user, secret, Join([PrintInt(now + ttl), sig], '|')])
  {
    hide *;
    TokensAreSigned(mac, user, secret, now, ttl);
    var fields := SetupFields(user, secret, now + ttl);
    FieldLists(user, now + ttl, secret);
    SignedFields(mac, fields, 5);
    SignedFields(mac, fields, 4);
    LastTwo(fields, mac(Join(fields, '|')));
  }

  lemma LastTwo(fields: seq<string>, sig: string)
    requires |fields| == 4
    ensures fields + [sig] == [fields[0], fields[1], fields[2], fields[3], sig]
    ensures (fields + [sig])[..3] + [Join((fields + [sig])[3..], '|')] ==
            [fields[0], fields[1], fields[2], Join([fields[3], sig], '|')]
  {
    hide *;
    assert (fields + [sig])[3..] == [fields[3], sig];
  }

  /** A session token gives back its user and expiry, until it expires. */
  lemma SessionRecovers(mac: Mac, user: string, rev: string, issued: int, ttl: int, now: int)
    requires HexMac(mac) && IsValidUsername(user) && IsField(rev) && InRange(issued + ttl)
    ensures ValidateSession(mac, CreateSession(mac, user, rev, issued, ttl), rev, now) ==
              if now <= issued + ttl then Some(Session(user, issued + ttl)) else None
  {
    SessionTokenFields(mac, user, rev, issued, ttl);
    ParsePrint(issued + ttl);
    UsernameIsField(user);
    hide Fields, CreateSession, CreatePending, CreateSetup, PrintInt, ParseInt64, HexMac, IsValidUsername, Join, SessionPayload;
  }

  lemma PendingRecovers(mac: Mac, user: string, rev: string, issued: int, ttl: int, now: int)
    requires HexMac(mac) && IsValidUsername(user) && IsField(rev) && InRange(issued + ttl)
    ensures ValidatePending(mac, CreatePending(mac, user, rev, issued, ttl), rev, now) ==
              if now <= issued + ttl then Some(user) else None
  {
    PendingTokenFields(mac, user, rev, issued, ttl);
    ParsePrint(issued + ttl);
    hide Fields, CreateSession, CreatePending, CreateSetup, PrintInt, ParseInt64, HexMac, IsValidUsername, Join, PendingPayload;
  }

  lemma SetupRecovers(mac: Mac, user: string, secret: string, issued: int, ttl: int, now: int)
    requires HexMac(mac) && IsValidUsername(user) && IsField(secret) && InRange(issued + ttl)
    ensures ValidateSetup(mac, CreateSetup(mac, user, secret, issued, ttl), now) ==
              if now <= issued + ttl then Some(Setup(user, secret)) else None
  {
    SetupTokenFields(mac, user, secret, issued, ttl);
    ParsePrint(issued + ttl);
    hide Fields, CreateSession, CreatePending, CreateSetup, PrintInt, ParseInt64, HexMac, IsValidUsername, Join, SetupPayload;
  }

  /** No token of one format is accepted by the parser of another, whatever the revision and time. */
  lemma FormatsNeverOverlap(mac: Mac, user: string, text: string, issued: int, ttl: int, rev: string, now: int)
    requires HexMac(mac) && IsValidUsername(user) && IsField(text)
    ensures ValidatePending(mac, CreateSession(mac, user, text, issued, ttl), rev, now).None?
    ensures ValidateSetup(mac, CreateSession(mac, user, text, issued, ttl), now).None?
    ensures ValidateSession(mac, CreatePending(mac, user, text, issued, ttl), rev, now).None?
    ensures ValidateSetup(mac, CreatePending(mac, user, text, issued, ttl), now).None?
    ensures ValidateSession(mac, CreateSetup(mac, user, text, issued, ttl), rev, now).None?
    ensures ValidatePending(mac, CreateSetup(mac, user, text, issued, ttl), rev, now).None?
  {
    SessionTokenFields(mac, user, text, issued, ttl);
    PendingTokenFields(mac, user, text, issued, ttl);
    SetupTokenFields(mac, user, text, issued, ttl);
    UsernameIsField(user);
    hide Fields, CreateSession, CreatePending, CreateSetup, PrintInt, ParseInt64, HexMac, IsValidUsername, Join;
  }

  // ---------------------------------------------------------------- what is accepted

  predicate FirstBare(parts: seq<string>) {
    forall i :: 0 <= i < |parts| - 1 ==> '|' !in parts[i]
  }

  /** The token decodes to these fields with bars between them; only the last may hold bars itself. */
  ghost predicate Holds(token: string, fields: seq<string>) {
    && fields != [] && Decode(token) == Some(Join(fields, '|')) && FirstBare(fields)
  }

  lemma FirstBareCons(part: string, rest: seq<string>)
    requires rest != []
    ensures FirstBare([part] + rest) <==> '|' !in part && FirstBare(rest)
  {
    var all := [part] + rest;
    assert all[0] == part && forall i :: 0 < i < |all| ==> all[i] == rest[i - 1];
    if FirstBare(all) {
      forall i | 0 <= i < |rest| - 1
        ensures '|' !in rest[i]
      {
        assert rest[i] == all[i + 1];
      }
    }
  }

  lemma {:induction false} PartsJoin(s: string, n: nat)
    requires n > 0 && |SplitN(s, '|', n)| == n
    ensures s == Join(SplitN(s, '|', n), '|') && FirstBare(SplitN(s, '|', n))
    decreases n
  {
    hide *;
    var k := Find(s, '|');
    if n == 1 {
      OnePart(s);
    } else {
      SplitNHead(s, n);
      var more := SplitN(s[k + 1..], '|', n - 1);
      PartsJoin(s[k + 1..], n - 1);
      JoinCons(s[..k], more, '|');
      FirstBareCons(s[..k], more);
      assert s == s[..k] + ['|'] + s[k + 1..];
    }
  }

  lemma OnePart(s: string)
    ensures SplitN(s, '|', 1) == [s] && Join([s], '|') == s && FirstBare([s])
  {
  }

  lemma {:induction false} JoinParts(parts: seq<string>)
    requires parts != [] && FirstBare(parts)
    ensures SplitN(Join(parts, '|'), '|', |parts|) == parts
    decreases |parts|
  {
    hide SplitN;
    if |parts| == 1 {
      assert parts == [parts[0]];
      OnePart(parts[0]);
    } else {
      var rest := parts[1..];
      assert parts == [parts[0]] + rest;
      FirstBareCons(parts[0], rest);
      JoinCons(parts[0], rest, '|');
      hide Join, FirstBare;
      JoinParts(rest);
      SplitNCons(parts[0], Join(rest, '|'), '|', |parts|);
    }
  }

  lemma SplitNHead(s: string, n: nat)
    requires n > 1
    ensures var k := Find(s, '|');
            SplitN(s, '|', n) == if k == |s| then [s] else [s[..k]] + SplitN(s[k + 1..], '|', n - 1)
  {
  }

  lemma FieldsIff(token: string, fields: seq<string>)
    requires fields != []
    ensures Fields(token, |fields|) == Some(fields) <==> Holds(token, fields)
  {
    hide Decode, Join, SplitN, FirstBare;
    if Fields(token, |fields|) == Some(fields) {
      PartsJoin(Decode(token).value, |fields|);
    }
    if FirstBare(fields) {
      JoinParts(fields);
    }
  }

  /**
    * Exactly which tokens are sessions.  The MAC binds the user, the expiry and the revision;
    * the token may spell the expiry otherwise than the gateway does, and any text may stand
    * for the revision.
    */
  lemma SessionAcceptedIff(mac: Mac, token: string, rev: string, now: int, user: string, expiry: int)
    ensures ValidateSession(mac, token, rev, now) == Some(Session(user, expiry)) <==>
            && now <= expiry && user != ""
            && exists e, r :: ParseInt64(e) == Some(expiry)
                              && Holds(token, [user, e, r, mac(user + "|" + PrintInt(expiry) + "|" + rev)])
  {
    hide Fields, Holds, PrintInt, ParseInt64;
    var sig := mac(user + "|" + PrintInt(expiry) + "|" + rev);
    forall e, r {
      FieldsIff(token, [user, e, r, sig]);
    }
    if Fields(token, 4).Some? {
      var f := Fields(token, 4).value;
      assert f == [f[0], f[1], f[2], f[3]];
    }
  }

  lemma PendingAcceptedIff(mac: Mac, token: string, rev: string, now: int, user: string)
    ensures ValidatePending(mac, token, rev, now) == Some(user) <==>
            exists e, r :: ParseInt64(e).Some? && now <= ParseInt64(e).value
                           && Holds(token, ["2fa", user, e, r,
                                mac("2fa|" + user + "|" + PrintInt(ParseInt64(e).value) + "|" + rev)])
  {
    hide Fields, Holds, PrintInt, ParseInt64;
    forall e, r, sig {
      FieldsIff(token, ["2fa", user, e, r, sig]);
    }
    if Fields(token, 5).Some? {
      var f := Fields(token, 5).value;
      assert f == [f[0], f[1], f[2], f[3], f[4]];
    }
  }

  lemma SetupAcceptedIff(mac: Mac, token: string, now: int, user: string, secret: string)
    ensures ValidateSetup(mac, token, now) == Some(Setup(user, secret)) <==>
            exists e :: ParseInt64(e).Some? && now <= ParseInt64(e).value
                        && Holds(token, ["setup", user, secret, e,
                             mac("setup|" + user + "|" + secret + "|" + PrintInt(ParseInt64(e).value))])
  {
    hide Fields, Holds, PrintInt, ParseInt64;
    forall e, sig {
      FieldsIff(token, ["setup", user, secret, e, sig]);
    }
    if Fields(token, 5).Some? {
      var f := Fields(token, 5).value;
      assert f == [f[0], f[1], f[2], f[3], f[4]];
    }
  }

  // ---------------------------------------------------------------- revocation

  lemma SameRevision(user: string, expiry: int, a: string, b: string)
    requires SessionPayload(user, expiry, a) == SessionPayload(user, expiry, b)
             || PendingPayload(user, expiry, a) == PendingPayload(user, expiry, b)
    ensures a == b
  {
    var s, t := user + "|" + PrintInt(expiry) + "|", "2fa|" + user + "|" + PrintInt(expiry) + "|";
    assert (s + a)[|s|..] == a && (s + b)[|s|..] == b && (t + a)[|t|..] == a && (t + b)[|t|..] == b;
  }

  /**
    * A changed revision revokes: whatever string it is, a token accepted at one revision is
    * accepted at no other, at no time.
    */
  lemma RevisionRevokes(mac: Mac, token: string, rev: string, now: int, rev': string, now': int)
    requires Injective(mac) && rev != rev'
    ensures ValidateSession(mac, token, rev, now).Some? ==> ValidateSession(mac, token, rev', now').None?
    ensures ValidatePending(mac, token, rev, now).Some? ==> ValidatePending(mac, token, rev', now').None?
  {
    hide Fields, SessionPayload, PendingPayload, ParseInt64;
    if ValidateSession(mac, token, rev, now).Some? && ValidateSession(mac, token, rev', now').Some? {
      SameRevision(Fields(token, 4).value[0], ParseInt64(Fields(token, 4).value[1]).value, rev, rev');
    }
    if ValidatePending(mac, token, rev, now).Some? && ValidatePending(mac, token, rev', now').Some? {
      SameRevision(Fields(token, 5).value[1], ParseInt64(Fields(token, 5).value[2]).value, rev, rev');
    }
  }

  /** Nor can one format's MAC be reused in another: no two formats ever sign the same payload. */
  lemma PayloadsNeverCoincide(user: string, expiry: int, rev: string, user': string, expiry': int, text: string)
    requires IsValidUsername(user) && IsField(rev) && IsValidUsername(user') && IsField(text)
    ensures SessionPayload(user, expiry, rev) != PendingPayload(user', expiry', text)
    ensures SessionPayload(user, expiry, rev) != SetupPayload(user', text, expiry')
    ensures PendingPayload(user, expiry, rev) != SetupPayload(user', text, expiry')
  {
    PayloadsAreFields(user, expiry, rev);
    PayloadsAreFields(user', expiry', text);
    FieldsAreFields(user, expiry, rev);
    FieldsAreFields(user', expiry', text);
    hide Join, IsValidUsername, IsField, SessionPayload, PendingPayload, SetupPayload, PrintInt;
    FieldsBack(SessionFields(user, expiry, rev));
    FieldsBack(PendingFields(user, expiry, rev));
    FieldsBack(PendingFields(user', expiry', text));
    FieldsBack(SetupFields(user', text, expiry'));
    assert PendingFields(user, expiry, rev)[0] != SetupFields(user', text, expiry')[0];
  }

  lemma FieldsBack(fields: seq<string>)
    requires |fields| > 0 && AllFields(fields)
    ensures Split(Join(fields, '|'), '|') == fields
  {
    forall f | f in fields
      ensures '|' !in f
    {
      assert IsField(f);
    }
    SplitOfJoin(fields, '|');
  }
}
