/**
  * Every edit of a configuration file: creating and removing it, changing the password or the
  * second factor, and adding, updating, removing and arranging services.
  */
module ConfigEdits {
  import opened Basics
  import opened Text
  import opened ServicePaths
  import opened Hostnames
  import opened UserConfig

  datatype Edit =
    | CreateConfig(hash: string)
    | RemoveConfig
    | SetPassword(hash: string)
    | SetTotp(secret: string)
    | AddService(svc: Service)
    | UpdateService(id: string, update: Update)
    | RemoveService(id: string)
    | SetLayout(items: seq<Item>)

  /** How an edit ends. It panics if the document it is about to rewrite cannot be read. */
  datatype Outcome = Fail | Panic | Delete | Save(doc: Doc)

  /** What the file then holds, if the write succeeds. */
  function Settled(file: File, o: Outcome): File {
    match o
    case Fail => file
    case Panic => file
    case Delete => Missing
    case Save(doc) => Document(doc)
  }

  // ---------------------------------------------------------------- account edits

  predicate IsHexDigit(c: char) {
    IsDigit(c) || 'a' <= c <= 'f' || 'A' <= c <= 'F'
  }

  predicate IsValidPasswordHash(hash: string) {
    var h := TrimSpace(hash);
    || (|h| == 60 && h[..2] == "$2")
    || (|h| == 64 && forall c :: c in h ==> IsHexDigit(c))
  }

  function NewDoc(hash: string): Doc {
    Doc(Some(RawAuth(Some(hash), None, map[])), Some([]), None, map[])
  }

  function AuthOf(doc: Doc): RawAuth {
    Or(doc.auth, RawAuth(None, None, map[]))
  }

  // ---------------------------------------------------------------- service edits, on loaded services

  function MaxOrder(services: seq<Service>): int {
    if services == [] then -1
    else
      var last, max := services[|services| - 1].order, MaxOrder(services[..|services| - 1]);
      if last > max then last else max
  }

  /** Go's int is 64 bits wide, and its addition wraps around. */
  function Wrap64(n: int): int {
    if n > INT64_MAX then n - 0x1_0000_0000_0000_0000 else n
  }

  predicate Collides(services: seq<Service>, selfId: string, hosts: seq<string>) {
    exists s :: s in services && s.id != selfId && exists h :: h in s.hostnames && h in hosts
  }

  function CheckedHostnames(services: seq<Service>, selfId: string, raws: seq<string>): Result<seq<string>> {
    if Dropped(raws) != [] || Collides(services, selfId, Kept(raws)) then Err else Ok(Kept(raws))
  }

  function BaseId(id: string): string {
    var trimmed := TrimSpace(id);
    if trimmed == "" then "service" else trimmed
  }

  /** The path a new service gets, still to be validated. */
  function NewPath(services: seq<Service>, path: string, id: string): string {
    if path == "" then Unique(NormalizePath("/" + id), Paths(services)) else NormalizePath(path)
  }

  function HostOr(host: string): string {
    if host == "" then "127.0.0.1" else host
  }

  predicate BackendOk(net: Net, svc: Service) {
    && net.allowed(HostOr(svc.host)) && 1 <= svc.port <= 65535 && svc.bwLimit >= 0
    && !net.self(HostOr(svc.host), svc.port)
  }

  /** The service an addition stores. */
  function Added(net: Net, services: seq<Service>, svc: Service): Result<Service> {
    var id := Unique(BaseId(svc.id), Ids(services));
    var path := NewPath(services, svc.path, id);
    var hosts := CheckedHostnames(services, "", svc.hostnames);
    if !BackendOk(net, svc) || !ValidatePath(path) || (svc.path != "" && path in Paths(services)) || hosts.Err? then Err
    else Ok(svc.(id := id, host := HostOr(svc.host), path := path,
                 order := Wrap64(MaxOrder(services) + 1), hostnames := hosts.value))
  }

  /** The position of the first service with this ID, or the length when there is none. */
  function IndexOf(services: seq<Service>, id: string): (i: nat)
    ensures i <= |services|
    ensures i < |services| ==> services[i].id == id
    ensures forall j :: 0 <= j < i ==> services[j].id != id
  {
    if services == [] || services[0].id == id then 0 else 1 + IndexOf(services[1..], id)
  }

  /** The fields an update changes: a missing one, or an empty name, host or path, stays. */
  function Merged(s: Service, u: Update): Service {
    MergedHostnames(MergedFlags(MergedPath(MergedBackend(s, u), u), u), u)
  }

  function MergedBackend(s: Service, u: Update): Service {
    s.(name := if Or(u.name, "") != "" then u.name.value else s.name,
       description := Or(u.description, s.description),
       host := if Or(u.host, "") != "" then u.host.value else s.host,
       port := Or(u.port, s.port))
  }

  function MergedPath(s: Service, u: Update): Service {
    s.(path := if Or(u.path, "") != "" then NormalizePath(u.path.value) else s.path)
  }

  function MergedFlags(s: Service, u: Update): Service {
    s.(backendPath := Or(u.backendPath, s.backendPath), webSocket := Or(u.webSocket, s.webSocket),
       category := Or(u.category, s.category), bwLimit := Or(u.bwLimit, s.bwLimit),
       rootAbsolute := Or(u.rootAbsolute, s.rootAbsolute))
  }

  function MergedHostnames(s: Service, u: Update): Service {
    s.(hostnames := if u.hostnames.Some? then Kept(u.hostnames.value) else s.hostnames)
  }

  predicate PathTakenByOther(services: seq<Service>, i: nat, path: string) {
    exists j :: 0 <= j < |services| && j != i && services[j].path == path
  }

  predicate BackendRefused(net: Net, u: Update) {
    || (Or(u.host, "") != "" && !net.allowed(u.host.value))
    || (u.port.Some? && !(1 <= u.port.value <= 65535))
  }

  predicate PathRefused(services: seq<Service>, i: nat, u: Update) {
    && Or(u.path, "") != ""
    && var path := NormalizePath(u.path.value);
       !ValidatePath(path) || PathTakenByOther(services, i, path)
  }

  /** Every reason an update of service `i` is turned down. */
  predicate Refused(net: Net, services: seq<Service>, i: nat, u: Update)
    requires i < |services|
  {
    || BackendRefused(net, u)
    || PathRefused(services, i, u)
    || (u.bwLimit.Some? && u.bwLimit.value < 0)
    || (u.hostnames.Some? && CheckedHostnames(services, services[i].id, u.hostnames.value).Err?)
    || (var s := MergedBackend(services[i], u); net.self(s.host, s.port))
  }

  function Updated(net: Net, services: seq<Service>, id: string, u: Update): Result<seq<Service>> {
    var i := IndexOf(services, id);
    if i == |services| || Refused(net, services, i, u) then Err
    else Ok(services[i := Merged(services[i], u)])
  }

  function Without(services: seq<Service>, id: string): seq<Service> {
    if services == [] then []
    else
      var last := services[|services| - 1];
      Without(services[..|services| - 1], id) + if last.id != id then [last] else []
  }

  function ItemIds(items: seq<Item>): set<string> {
    set it | it in items :: it.id
  }

  /** The item that names this service. */
  function ItemFor(items: seq<Item>, id: string): Option<Item> {
    if items == [] then None
    else if items[|items| - 1].id == id then Some(items[|items| - 1])
    else ItemFor(items[..|items| - 1], id)
  }

  function Placed(s: Service, item: Option<Item>): Service {
    if item.Some? then s.(order := item.value.order, category := item.value.category) else s
  }

  function PlacedAll(services: seq<Service>, items: seq<Item>): (r: seq<Service>)
    ensures |r| == |services| && forall i :: 0 <= i < |r| ==> r[i] == Placed(services[i], ItemFor(items, services[i].id))
  {
    seq(|services|, i requires 0 <= i < |services| => Placed(services[i], ItemFor(items, services[i].id)))
  }

  /** A layout must name every service exactly once. */
  predicate CompleteLayout(services: seq<Service>, items: seq<Item>) {
    && |items| == |services| && |ItemIds(items)| == |items|
    && ItemIds(items) <= Ids(services)
  }

  function Arranged(services: seq<Service>, items: seq<Item>): Result<seq<Service>> {
    if CompleteLayout(services, items) then Ok(PlacedAll(services, items)) else Err
  }

  // ---------------------------------------------------------------- outcomes

  /** The second read supplies the document whose services are replaced. */
  function Rewrite(second: File, services: Result<seq<Service>>): Outcome {
    if services.Err? then Fail
    else if !second.Document? then Panic
    else Save(second.doc.(services := Some(SerializedAll(services.value))))
  }

  /** A removed service is also forgotten as the default. */
  function ForgetDefault(o: Outcome, services: seq<Service>): Outcome {
    if o.Save? && Or(o.doc.defaultService, "") != "" && !HasId(services, o.doc.defaultService.value) then
      o.(doc := o.doc.(defaultService := None))
    else
      o
  }

  function ServiceEdit(net: Net, e: Edit, services: seq<Service>): Result<seq<Service>>
    requires e.AddService? || e.UpdateService? || e.RemoveService? || e.SetLayout?
  {
    match e
    case AddService(svc) =>
      var added := Added(net, services, svc);
      if added.Err? then Err else Ok(services + [added.value])
    case UpdateService(id, update) => Updated(net, services, id, update)
    case RemoveService(id) => if HasId(services, id) then Ok(Without(services, id)) else Err
    case SetLayout(items) => Arranged(services, items)
  }

  function Perform(net: Net, regex: Regex, e: Edit, first: File, second: File): Outcome {
    match e
    case CreateConfig(hash) =>
      if !IsValidPasswordHash(hash) || !first.Missing? then Fail else Save(NewDoc(hash))
    case RemoveConfig => if first.Missing? then Fail else Delete
    case SetPassword(hash) =>
      if !first.Document? then Fail
      else Save(first.doc.(auth := Some(AuthOf(first.doc).(passwordHash := Some(hash)))))
    case SetTotp(secret) =>
      if !first.Document? then Fail
      else
        var totp := if secret == "" then None else Some(secret);
        Save(first.doc.(auth := Some(AuthOf(first.doc).(totpSecret := totp))))
    case _ =>
      var cfg := Load(regex, first);
      if cfg.Err? then Fail
      else
        var services := ServiceEdit(net, e, cfg.value.services);
        var o := Rewrite(second, services);
        if e.RemoveService? && services.Ok? then ForgetDefault(o, services.value) else o
  }

  // ---------------------------------------------------------------- the loops the code runs

  method NextOrder(services: seq<Service>) returns (order: int)
    ensures order == Wrap64(MaxOrder(services) + 1)
  {
    var max := -1;
    for i := 0 to |services|
      invariant max == MaxOrder(services[..i])
    {
      assert services[..i + 1][..i] == services[..i];
      if services[i].order > max {
        max := services[i].order;
      }
    }
    assert services[..|services|] == services;
    order := Wrap64(max + 1);
  }

  method ValidateHostnames(services: seq<Service>, selfId: string, raws: seq<string>)
    returns (r: Result<seq<string>>)
    ensures r == CheckedHostnames(services, selfId, raws)
  {
    hide Kept, Dropped;
    var normalized, dropped := NormalizeHostnames(raws);
    if dropped != [] {
      return Err;
    }
    for i := 0 to |services|
      invariant !Collides(services[..i], selfId, normalized)
    {
      var other := services[i];
      assert forall s :: s in services[..i + 1] <==> s in services[..i] || s == other;
      if other.id != selfId {
        for j := 0 to |other.hostnames|
          invariant forall h :: h in other.hostnames[..j] ==> h !in normalized
        {
          if other.hostnames[j] in normalized {
            return Err;
          }
        }
      }
    }
    assert services[..|services|] == services;
    r := Ok(normalized);
  }

  method AddToServices(net: Net, services: seq<Service>, svc0: Service) returns (r: Result<Service>)
    ensures r == Added(net, services, svc0)
  {
    hide NormalizePath, ValidatePath, Unique, Wrap64, CheckedHostnames, TrimSpace;
    var svc := svc0.(host := HostOr(svc0.host));
    if !net.allowed(svc.host) || svc.port < 1 || svc.port > 65535 || svc.bwLimit < 0 || net.self(svc.host, svc.port) {
      return Err;
    }
    var id := MakeUnique(BaseId(svc.id), Ids(services));
    var path;
    if svc.path == "" {
      path := MakeUnique(NormalizePath("/" + id), Paths(services));
      if !ValidatePath(path) {
        return Err;
      }
    } else {
      path := NormalizePath(svc.path);
      if !ValidatePath(path) || path in Paths(services) {
        return Err;
      }
    }
    var order := NextOrder(services);
    var hosts := ValidateHostnames(services, "", svc.hostnames);
    if hosts.Err? {
      return Err;
    }
    r := Ok(svc.(id := id, path := path, order := order, hostnames := hosts.value));
  }

  method RemoveFromServices(services: seq<Service>, id: string) returns (r: Result<seq<Service>>)
    ensures r == if HasId(services, id) then Ok(Without(services, id)) else Err
  {
    var kept, found := [], false;
    for i := 0 to |services|
      invariant kept == Without(services[..i], id) && found == HasId(services[..i], id)
    {
      assert services[..i + 1][..i] == services[..i];
      assert forall s :: s in services[..i + 1] <==> s in services[..i] || s == services[i];
      if services[i].id != id {
        kept := kept + [services[i]];
      } else {
        found := true;
      }
    }
    assert services[..|services|] == services;
    r := if found then Ok(kept) else Err;
  }

  /** The service keeps its ID, so what the hostnames are checked against does not change with it. */
  lemma SelfIsIgnored(services: seq<Service>, i: nat, s: Service, raws: seq<string>)
    requires i < |services| && s.id == services[i].id
    ensures CheckedHostnames(services[i := s], s.id, raws) == CheckedHostnames(services, s.id, raws)
  {
    hide Kept, Dropped;
    var other := services[i := s];
    assert forall t :: t in other && t.id != s.id ==> t in services;
    forall t | t in services && t.id != s.id
      ensures t in other
    {
      var j :| 0 <= j < |services| && services[j] == t;
      assert other[j] == t;
    }
  }

  method UpdateBackend(net: Net, s0: Service, u: Update) returns (r: Result<Service>)
    ensures r == if BackendRefused(net, u) then Err else Ok(MergedBackend(s0, u))
  {
    var s := s0;
    if u.name.Some? && u.name.value != "" {
      s := s.(name := u.name.value);
    }
    if u.description.Some? {
      s := s.(description := u.description.value);
    }
    if u.host.Some? && u.host.value != "" {
      if !net.allowed(u.host.value) {
        return Err;
      }
      s := s.(host := u.host.value);
    }
    if u.port.Some? {
      if u.port.value < 1 || u.port.value > 65535 {
        return Err;
      }
      s := s.(port := u.port.value);
    }
    r := Ok(s);
  }

  method UpdatePath(services: seq<Service>, i: nat, s: Service, u: Update) returns (r: Result<Service>)
    ensures r == if PathRefused(services, i, u) then Err else Ok(MergedPath(s, u))
  {
    hide NormalizePath, ValidatePath;
    if u.path.None? || u.path.value == "" {
      return Ok(s);
    }
    var path := NormalizePath(u.path.value);
    if !ValidatePath(path) {
      return Err;
    }
    for j := 0 to |services|
      invariant forall k :: 0 <= k < j && k != i ==> services[k].path != path
    {
      if j != i && services[j].path == path {
        return Err;
      }
    }
    r := Ok(s.(path := path));
  }

  method UpdateFlags(s0: Service, u: Update) returns (r: Result<Service>)
    ensures r == if u.bwLimit.Some? && u.bwLimit.value < 0 then Err else Ok(MergedFlags(s0, u))
  {
    var s := s0;
    if u.backendPath.Some? {
      s := s.(backendPath := u.backendPath.value);
    }
    if u.webSocket.Some? {
      s := s.(webSocket := u.webSocket.value);
    }
    if u.category.Some? {
      s := s.(category := u.category.value);
    }
    if u.bwLimit.Some? {
      if u.bwLimit.value < 0 {
        return Err;
      }
      s := s.(bwLimit := u.bwLimit.value);
    }
    if u.rootAbsolute.Some? {
      s := s.(rootAbsolute := u.rootAbsolute.value);
    }
    r := Ok(s);
  }

  /** The ID is never updated, nor host or port after the first step. */
  lemma MergedKeeps(s: Service, u: Update)
    ensures var b, m := MergedBackend(s, u), MergedFlags(MergedPath(MergedBackend(s, u), u), u);
            b.id == m.id == s.id && m.host == b.host && m.port == b.port
            && Merged(s, u).host == b.host && Merged(s, u).port == b.port && Merged(s, u).id == s.id
  {
    hide NormalizePath, Kept, Or;
  }

  /** The checks and assignments of one update, in the order the code makes them. */
  method UpdateOne(net: Net, services: seq<Service>, i: nat, u: Update) returns (r: Result<Service>)
    requires i < |services|
    ensures r == if Refused(net, services, i, u) then Err else Ok(Merged(services[i], u))
  {
    MergedKeeps(services[i], u);
    hide MergedBackend, MergedPath, MergedFlags, BackendRefused, PathRefused, CheckedHostnames, Kept;
    r := UpdateBackend(net, services[i], u);
    if r.Err? {
      return;
    }
    r := UpdatePath(services, i, r.value, u);
    if r.Err? {
      return;
    }
    r := UpdateFlags(r.value, u);
    if r.Err? {
      return;
    }
    if u.hostnames.Some? {
      SelfIsIgnored(services, i, r.value, u.hostnames.value);
      var hosts := ValidateHostnames(services[i := r.value], r.value.id, u.hostnames.value);
      if hosts.Err? {
        return Err;
      }
      CheckedGivesKept(services, r.value.id, u.hostnames.value);
      r := Ok(r.value.(hostnames := hosts.value));
    }
    if net.self(r.value.host, r.value.port) {
      return Err;
    }
  }

  lemma CheckedGivesKept(services: seq<Service>, selfId: string, raws: seq<string>)
    ensures var r := CheckedHostnames(services, selfId, raws); r.Ok? ==> r.value == Kept(raws)
  {
    hide Kept;
  }

  method UpdateInServices(net: Net, services: seq<Service>, id: string, u: Update) returns (r: Result<seq<Service>>)
    ensures r == Updated(net, services, id, u)
  {
    hide Refused, Merged;
    for i := 0 to |services|
      invariant forall j :: 0 <= j < i ==> services[j].id != id
    {
      if services[i].id == id {
        assert IndexOf(services, id) == i;
        var s := UpdateOne(net, services, i, u);
        return if s.Ok? then Ok(services[i := s.value]) else Err;
      }
    }
    r := Err;
  }

  // ---------------------------------------------------------------- layouts

  lemma IdsSplit(services: seq<Service>)
    requires services != []
    ensures Ids(services) == Ids(services[..|services| - 1]) + {services[|services| - 1].id}
  {
    assert forall s :: s in services <==> s in services[..|services| - 1] || s == services[|services| - 1];
  }

  lemma IdIsListed(services: seq<Service>, i: nat)
    requires i < |services|
    ensures services[i].id in Ids(services)
  {
  }

  lemma {:induction false} FewerIds(services: seq<Service>)
    ensures |Ids(services)| <= |services|
  {
    if services != [] {
      IdsSplit(services);
      FewerIds(services[..|services| - 1]);
    }
  }

  lemma {:induction false} AsManyIds(services: seq<Service>, i: nat, j: nat)
    requires |Ids(services)| == |services| && i < j < |services|
    ensures services[i].id != services[j].id
  {
    hide Ids;
    var init := services[..|services| - 1];
    IdsSplit(services);
    FewerIds(init);
    if j == |init| {
      IdIsListed(init, i);
    } else {
      AsManyIds(init, i, j);
    }
  }

  /** The pigeonhole behind layouts: one that is accepted names every service exactly once. */
  lemma CompleteMeansAll(services: seq<Service>, items: seq<Item>)
    requires CompleteLayout(services, items)
    ensures ItemIds(items) == Ids(services)
    ensures forall i, j :: 0 <= i < j < |services| ==> services[i].id != services[j].id
  {
    FewerIds(services);
    assert Ids(services) == ItemIds(items) + (Ids(services) - ItemIds(items));
    forall i, j | 0 <= i < j < |services|
      ensures services[i].id != services[j].id
    {
      AsManyIds(services, i, j);
    }
  }

  lemma ItemIdsGrow(items: seq<Item>, n: nat)
    requires n < |items|
    ensures ItemIds(items[..n + 1]) == ItemIds(items[..n]) + {items[n].id}
    ensures ItemIds(items[..n]) <= ItemIds(items)
  {
    assert forall it :: it in items[..n + 1] <==> it in items[..n] || it == items[n];
    assert forall it :: it in items[..n] ==> it in items;
  }

  lemma {:induction false} ItemIdsBound(items: seq<Item>)
    ensures |ItemIds(items)| <= |items|
  {
    if items != [] {
      ItemIdsBound(items[..|items| - 1]);
      ItemIdsGrow(items, |items| - 1);
      assert items[..|items|] == items;
    }
  }

  lemma ItemIdsConcat(a: seq<Item>, b: seq<Item>)
    ensures ItemIds(a + b) == ItemIds(a) + ItemIds(b)
  {
    assert forall it :: it in a + b <==> it in a || it in b;
  }

  lemma {:induction false} ManyItemIds(items: seq<Item>)
    requires forall i, j :: 0 <= i < j < |items| ==> items[i].id != items[j].id
    ensures |ItemIds(items)| == |items|
  {
    if items != [] {
      var n := |items| - 1;
      ManyItemIds(items[..n]);
      ItemIdsGrow(items, n);
      assert items[..n + 1] == items;
    }
  }

  lemma {:induction false} ManyIds(services: seq<Service>)
    requires forall i, j :: 0 <= i < j < |services| ==> services[i].id != services[j].id
    ensures |Ids(services)| == |services|
  {
    if services != [] {
      IdsSplit(services);
      ManyIds(services[..|services| - 1]);
    }
  }

  /** A repeated item ID can never be made up for. */
  lemma RepeatedIsIncomplete(items: seq<Item>, n: nat)
    requires n < |items| && items[n].id in ItemIds(items[..n])
    ensures |ItemIds(items)| < |items|
  {
    ItemIdsGrow(items, n);
    ItemIdsConcat(items[..n + 1], items[n + 1..]);
    ItemIdsBound(items[..n]);
    ItemIdsBound(items[n + 1..]);
    hide ItemIds;
    assert items == items[..n + 1] + items[n + 1..];
    assert ItemIds(items) == ItemIds(items[..n]) + ItemIds(items[n + 1..]);
  }

  /** The index from IDs to positions; the last service of a repeated ID wins. */
  method IndexById(services: seq<Service>) returns (byId: map<string, nat>)
    ensures byId.Keys == Ids(services)
    ensures forall id :: id in byId ==> byId[id] < |services| && services[byId[id]].id == id
  {
    byId := map[];
    for i := 0 to |services|
      invariant byId.Keys == Ids(services[..i])
      invariant forall id :: id in byId ==> byId[id] < i && services[byId[id]].id == id
    {
      assert forall s :: s in services[..i + 1] <==> s in services[..i] || s == services[i];
      byId := byId[services[i].id := i];
    }
    assert services[..|services|] == services;
  }

  /** What the items have done to the services, through the index. */
  function PlacedBy(services: seq<Service>, byId: map<string, nat>, items: seq<Item>): (r: seq<Service>)
    requires byId.Keys == Ids(services)
    ensures |r| == |services|
  {
    seq(|services|, i requires 0 <= i < |services| =>
      if byId[services[i].id] == i then Placed(services[i], ItemFor(items, services[i].id)) else services[i])
  }

  lemma PlaceOneMore(services: seq<Service>, byId: map<string, nat>, items: seq<Item>, n: nat)
    requires byId.Keys == Ids(services) && n < |items| && items[n].id in byId
    requires forall id :: id in byId ==> byId[id] < |services| && services[byId[id]].id == id
    ensures var before, i := PlacedBy(services, byId, items[..n]), byId[items[n].id];
            PlacedBy(services, byId, items[..n + 1]) ==
            before[i := before[i].(order := items[n].order, category := items[n].category)]
  {
    assert items[..n + 1][..n] == items[..n];
  }

  lemma PlacedByAll(services: seq<Service>, byId: map<string, nat>, items: seq<Item>)
    requires byId.Keys == Ids(services)
    requires forall id :: id in byId ==> byId[id] < |services| && services[byId[id]].id == id
    requires forall i, j :: 0 <= i < j < |services| ==> services[i].id != services[j].id
    ensures PlacedBy(services, byId, items) == PlacedAll(services, items)
  {
    hide Placed, ItemFor;
    forall i | 0 <= i < |services|
      ensures byId[services[i].id] == i
    {
      assert services[i].id in Ids(services);
    }
  }

  lemma NothingPlaced(services: seq<Service>, byId: map<string, nat>)
    requires byId.Keys == Ids(services)
    ensures PlacedBy(services, byId, []) == services
  {
  }

  method ArrangeServices(services: seq<Service>, items: seq<Item>) returns (r: Result<seq<Service>>)
    ensures r == Arranged(services, items)
  {
    hide PlacedBy, Ids, ItemIds;
    if |items| != |services| {
      return Err;
    }
    var byId := IndexById(services);
    var seen: set<string>, placed := {}, services;
    NothingPlaced(services, byId);
    NoItems();
    for n := 0 to |items|
      invariant seen == ItemIds(items[..n]) && |seen| == n && seen <= Ids(services)
      invariant placed == PlacedBy(services, byId, items[..n])
    {
      var item := items[n];
      ItemIdsGrow(items, n);
      if item.id in seen {
        RepeatedIsIncomplete(items, n);
        return Err;
      }
      seen := seen + {item.id};
      if item.id !in byId {
        ItemIsNamed(items, n);
        return Err;
      }
      PlaceOneMore(services, byId, items, n);
      var i := byId[item.id];
      placed := placed[i := placed[i].(order := item.order, category := item.category)];
    }
    assert items[..|items|] == items;
    CompleteMeansAll(services, items);
    PlacedByAll(services, byId, items);
    r := Ok(placed);
  }

  lemma NoItems()
    ensures ItemIds([]) == {}
  {
  }

  lemma ItemIsNamed(items: seq<Item>, n: nat)
    requires n < |items|
    ensures items[n].id in ItemIds(items)
  {
  }
}
