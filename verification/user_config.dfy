/**
  * One user's configuration file: the document stored, the configuration loaded from it, and
  * every edit of it.  An edit reads the file (service edits read it twice: once as a
  * configuration, once as the raw document they rewrite) and yields an outcome.
  */
module UserConfig {
  import opened Basics
  import opened Text
  import opened ServicePaths
  import opened Hostnames

  // ---------------------------------------------------------------- data

  datatype Bootstrap = Bootstrap(
    mode: string, param: string, tokenValue: string, tokenFile: string, tokenLog: string, tokenRegex: string)

  datatype Service = Service(
    id: string, name: string, description: string, host: string, port: int, path: string, backendPath: string,
    webSocket: bool, rootAbsolute: bool, hostnames: seq<string>, category: string, order: int, bwLimit: int,
    bootstrap: Option<Bootstrap>)

  /** A service as it stands in the document, where any field may be missing. */
  datatype RawService = RawService(
    id: Option<string>, name: Option<string>, description: Option<string>, host: Option<string>,
    port: Option<int>, path: Option<string>, backendPath: Option<string>, webSocket: Option<bool>,
    rootAbsolute: Option<bool>, hostnames: Option<seq<string>>, category: Option<string>,
    order: Option<int>, bwLimit: Option<int>, bootstrap: Option<Bootstrap>)

  datatype RawAuth = RawAuth(passwordHash: Option<string>, totpSecret: Option<string>, rest: map<string, string>)

  /** The document; `rest` is whatever else the operator wrote into it. */
  datatype Doc = Doc(
    auth: Option<RawAuth>, services: Option<seq<RawService>>, defaultService: Option<string>,
    rest: map<string, string>)

  datatype File = Missing | Garbled | Document(doc: Doc)

  datatype Config = Config(services: seq<Service>, defaultService: string)

  datatype Update = Update(
    name: Option<string>, description: Option<string>, host: Option<string>, port: Option<int>,
    path: Option<string>, backendPath: Option<string>, webSocket: Option<bool>, category: Option<string>,
    bwLimit: Option<int>, rootAbsolute: Option<bool>, hostnames: Option<seq<string>>)

  datatype Item = Item(id: string, order: int, category: string)

  /** What the code asks of the network: may this host be a backend, does this target reach the gateway. */
  datatype Net = Net(allowed: string -> bool, self: (string, int) -> bool)

  /** Which strings are regular expressions. */
  type Regex = string -> bool

  // ---------------------------------------------------------------- loading

  function Or<T>(o: Option<T>, default: T): T {
    if o.Some? then o.value else default
  }

  /** Decoding one service; missing fields take their zero values. */
  function Decoded(raw: RawService): Service {
    Service(Or(raw.id, ""), Or(raw.name, ""), Or(raw.description, ""), Or(raw.host, ""), Or(raw.port, 0),
            Or(raw.path, ""), Or(raw.backendPath, ""), Or(raw.webSocket, false), Or(raw.rootAbsolute, false),
            Or(raw.hostnames, []), Or(raw.category, ""), Or(raw.order, 0), Or(raw.bwLimit, 0), raw.bootstrap)
  }

  function DecodedAll(raws: seq<RawService>): (ss: seq<Service>)
    ensures |ss| == |raws| && forall i :: 0 <= i < |ss| ==> ss[i] == Decoded(raws[i])
  {
    seq(|raws|, i requires 0 <= i < |raws| => Decoded(raws[i]))
  }

  function CanonicalBootstrap(regex: Regex, b: Bootstrap): Option<Bootstrap> {
    var mode, re := ToLower(TrimSpace(b.mode)), TrimSpace(b.tokenRegex);
    var usable := || (mode == "static" && TrimSpace(b.tokenValue) != "")
                  || (mode == "file" && TrimSpace(b.tokenFile) != "")
                  || (mode == "log" && TrimSpace(b.tokenLog) != "");
    if !usable || (re != "" && !regex(re)) then None
    else Some(b.(mode := mode, param := TrimSpace(b.param), tokenRegex := if re != "" then re else b.tokenRegex))
  }

  function LoadedBootstrap(regex: Regex, b: Option<Bootstrap>): Option<Bootstrap> {
    if b.Some? then CanonicalBootstrap(regex, b.value) else None
  }

  /** What loading makes of one decoded service: normalized, or skipped for its path. */
  function Accepted(regex: Regex, s: Service): Option<Service> {
    if TrimSpace(s.path) == "" || !ValidatePath(NormalizePath(s.path)) then None
    else Some(s.(path := NormalizePath(s.path), host := if s.host == "" then "127.0.0.1" else s.host,
                 bootstrap := LoadedBootstrap(regex, s.bootstrap), hostnames := Kept(s.hostnames)))
  }

  function AcceptedAll(regex: Regex, ss: seq<Service>): (r: seq<Service>)
    ensures |r| <= |ss|
  {
    if ss == [] then []
    else
      var last := Accepted(regex, ss[|ss| - 1]);
      AcceptedAll(regex, ss[..|ss| - 1]) + if last.Some? then [last.value] else []
  }

  predicate HasId(services: seq<Service>, id: string) {
    exists s :: s in services && s.id == id
  }

  function Ids(services: seq<Service>): set<string> {
    set s | s in services :: s.id
  }

  function Paths(services: seq<Service>): set<string> {
    set s | s in services :: s.path
  }

  function LoadedServices(regex: Regex, doc: Doc): seq<Service> {
    AcceptedAll(regex, DecodedAll(Or(doc.services, [])))
  }

  function Load(regex: Regex, file: File): Result<Config> {
    if !file.Document? then Err
    else
      var services, default := LoadedServices(regex, file.doc), Or(file.doc.defaultService, "");
      Ok(Config(services, if default != "" && !HasId(services, default) then "" else default))
  }

  /** Deletes the services it skips while it walks over the others. */
  method AcceptServices(regex: Regex, decoded: seq<Service>) returns (services: seq<Service>)
    ensures services == AcceptedAll(regex, decoded)
  {
    hide AcceptedAll, Accepted;
    services := decoded;
    var i := 0;
    ghost var done := 0;
    NothingAccepted(regex);
    while i < |services|
      invariant done <= |decoded| && i == |AcceptedAll(regex, decoded[..done])|
      invariant services == AcceptedAll(regex, decoded[..done]) + decoded[done..]
      decreases |services| - i
    {
      AcceptOneMore(regex, decoded, done);
      var s := Accepted(regex, services[i]);
      if s.None? {
        services := services[..i] + services[i + 1..];
      } else {
        services := services[i := s.value];
        i := i + 1;
      }
      done := done + 1;
    }
    assert decoded[..|decoded|] == decoded;
  }

  method LoadUserConfig(regex: Regex, file: File) returns (cfg: Result<Config>)
    ensures cfg == Load(regex, file)
  {
    hide AcceptedAll, HasId;
    if !file.Document? {
      return Err;
    }
    var services := AcceptServices(regex, DecodedAll(Or(file.doc.services, [])));
    var default := Or(file.doc.defaultService, "");
    if default != "" && !HasId(services, default) {
      default := "";
    }
    cfg := Ok(Config(services, default));
  }

  lemma NothingAccepted(regex: Regex)
    ensures AcceptedAll(regex, []) == []
  {
  }

  lemma AcceptOneMore(regex: Regex, all: seq<Service>, n: nat)
    requires n < |all|
    ensures AcceptedAll(regex, all[..n + 1]) ==
              AcceptedAll(regex, all[..n])
              + if Accepted(regex, all[n]).Some? then [Accepted(regex, all[n]).value] else []
  {
    assert all[..n + 1][..n] == all[..n];
  }

  // ---------------------------------------------------------------- saving

  function Present<T(==)>(value: T, zero: T): Option<T> {
    if value == zero then None else Some(value)
  }

  function Serialized(s: Service): RawService {
    RawService(Some(s.id), Some(s.name), Present(s.description, ""), Some(s.host), Some(s.port), Some(s.path),
               Present(s.backendPath, ""), Some(s.webSocket), Present(s.rootAbsolute, false),
               Present(s.hostnames, []), Present(s.category, ""), Some(s.order),
               if s.bwLimit > 0 then Some(s.bwLimit) else None, s.bootstrap)
  }

  function SerializedAll(services: seq<Service>): (raws: seq<RawService>)
    ensures |raws| == |services| && forall i :: 0 <= i < |raws| ==> raws[i] == Serialized(services[i])
  {
    seq(|services|, i requires 0 <= i < |services| => Serialized(services[i]))
  }

  method SerializeServices(services: seq<Service>) returns (raws: seq<RawService>)
    ensures raws == SerializedAll(services)
  {
    hide Serialized;
    raws := [];
    for i := 0 to |services|
      invariant |raws| == i && forall j :: 0 <= j < i ==> raws[j] == Serialized(services[j])
    {
      raws := raws + [Serialized(services[i])];
    }
  }

  /** What a service must be to survive saving and loading. */
  predicate Canonical(regex: Regex, s: Service) {
    && IsServicePath(s.path) && s.host != "" && s.bwLimit >= 0 && NormalList(s.hostnames)
    && (s.bootstrap.Some? ==> CanonicalBootstrap(regex, s.bootstrap.value) == s.bootstrap)
  }

  function Reloaded(regex: Regex, s: Service): Option<Service> {
    Accepted(regex, Decoded(Serialized(s)))
  }

  /** Encoding and decoding lose nothing but a limit below zero. */
  lemma DecodedSerialized(s: Service)
    ensures Decoded(Serialized(s)) == s.(bwLimit := if s.bwLimit > 0 then s.bwLimit else 0)
  {
  }

  /** One service comes back as it was if and only if it is canonical. */
  lemma ReloadedIffCanonical(regex: Regex, s: Service)
    ensures Reloaded(regex, s) == Some(s) <==> Canonical(regex, s)
  {
    hide CanonicalBootstrap, Kept, NormalList, TrimSpace, ValidatePath, NormalizePath, Decoded, Serialized;
    DecodedSerialized(s);
    KeptFixes(s.hostnames);
    NormalizedIsRooted(s.path);
    if IsServicePath(s.path) {
      NormalizeFixes(s.path);
      ServicePathIsNotBlank(s.path);
    }
  }

  lemma ServicePathIsNotBlank(p: string)
    requires IsServicePath(p)
    ensures TrimSpace(p) != ""
  {
    ServicePathChars(p, p[0]);
    ServicePathChars(p, p[|p| - 1]);
    TrimSpaceFixes(p);
  }

  /** Loading what was saved gives the same services if and only if every one is canonical. */
  lemma {:induction false} SaveThenLoad(regex: Regex, services: seq<Service>)
    ensures AcceptedAll(regex, DecodedAll(SerializedAll(services))) == services <==>
            forall s :: s in services ==> Canonical(regex, s)
  {
    hide Canonical, Accepted, AcceptedAll, Decoded, Serialized;
    var all := DecodedAll(SerializedAll(services));
    if services == [] {
      NothingAccepted(regex);
    } else {
      var init, last := services[..|services| - 1], services[|services| - 1];
      SaveThenLoad(regex, init);
      ReloadedIffCanonical(regex, last);
      assert all[..|init|] == DecodedAll(SerializedAll(init)) && all[..|init| + 1] == all;
      AcceptOneMore(regex, all, |init|);
      assert services == init + [last];
      assert forall s :: s in services <==> s in init || s == last;
    }
  }

  /** Loaded services are canonical, unless a hand-written file gives a negative bandwidth limit. */
  lemma LoadedIsCanonical(regex: Regex, s: Service)
    requires Accepted(regex, s).Some?
    ensures Canonical(regex, Accepted(regex, s).value) <==> s.bwLimit >= 0
  {
    hide Kept, NormalList, ValidatePath, NormalizePath, CanonicalBootstrap;
    NormalizedIsRooted(s.path);
    KeptExactly(s.hostnames, "");
    if LoadedBootstrap(regex, s.bootstrap).Some? {
      BootstrapTwice(regex, s.bootstrap.value);
    }
  }

  lemma BootstrapTwice(regex: Regex, b: Bootstrap)
    requires CanonicalBootstrap(regex, b).Some?
    ensures CanonicalBootstrap(regex, CanonicalBootstrap(regex, b).value) == CanonicalBootstrap(regex, b)
  {
    TrimSpaceTrims(b.mode);
    TrimSpaceTrims(b.param);
    TrimSpaceTrims(b.tokenRegex);
    ToLowerTrimmed(TrimSpace(b.mode));
    ToLowerTwice(TrimSpace(b.mode));
    hide TrimSpace, ToLower, Trimmed;
    TrimSpaceFixes(ToLower(TrimSpace(b.mode)));
    TrimSpaceFixes(TrimSpace(b.param));
    TrimSpaceFixes(TrimSpace(b.tokenRegex));
  }
}
