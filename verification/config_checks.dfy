/**
  * When an edit is accepted, said without the code's own functions, and what that means for
  * everything a run of edits leaves behind: no backend gets into the file unchecked.
  */
module ConfigChecks {
  import opened Basics
  import opened Text
  import opened ServicePaths
  import opened Slugs
  import opened Hostnames
  import opened UserConfig
  import opened ConfigEdits
  import opened ConfigInvariant

  // ---------------------------------------------------------------- what is checked

  /** Every entry is a hostname, and no service but those of `selfId` has any of them. */
  predicate FreeHostnames(services: seq<Service>, selfId: string, raws: seq<string>) {
    forall raw :: raw in raws ==>
      && NormalizeHostname(raw).Some?
      && forall i :: 0 <= i < |services| && services[i].id != selfId ==> NormalizeHostname(raw).value !in services[i].hostnames
  }

  lemma HostnamesAcceptedIff(services: seq<Service>, selfId: string, raws: seq<string>)
    ensures CheckedHostnames(services, selfId, raws).Ok? <==> FreeHostnames(services, selfId, raws)
  {
    hide NormalizeHostname, Kept, Dropped;
    forall raw
      ensures raw in Dropped(raws) <==> raw in raws && NormalizeHostname(raw).None?
    {
      DroppedExactly(raws, raw);
    }
    forall h
      ensures h in Kept(raws) <==> exists raw :: raw in raws && NormalizeHostname(raw) == Some(h)
    {
      KeptExactly(raws, h);
    }
    if Dropped(raws) == [] && !Collides(services, selfId, Kept(raws)) {
      forall raw, i | raw in raws && 0 <= i < |services| && services[i].id != selfId
        ensures NormalizeHostname(raw).Some? && NormalizeHostname(raw).value !in services[i].hostnames
      {
        assert raw !in Dropped(raws) && services[i] in services;
        assert NormalizeHostname(raw).value in Kept(raws);
      }
      forall raw | raw in raws
        ensures NormalizeHostname(raw).Some?
      {
        assert raw !in Dropped(raws);
      }
    }
    if Dropped(raws) != [] {
      assert Dropped(raws)[0] in Dropped(raws);
    }
    if s, h :| s in services && s.id != selfId && h in s.hostnames && h in Kept(raws) {
      var raw :| raw in raws && NormalizeHostname(raw) == Some(h);
      var i :| 0 <= i < |services| && services[i] == s;
      assert !FreeHostnames(services, selfId, raws);
    }
  }

  /** The service stored is one an addition may store. */
  predicate Admissible(net: Net, host: string, port: int) {
    net.allowed(host) && !net.self(host, port)
  }

  /**
    * An addition is accepted exactly if the network allows its backend and the backend is not
    * the gateway, port and limit are in range, its path (given or generated) is a valid one and
    * a given one is free, and its hostnames are hostnames nobody else has.
    */
  lemma AddedIff(net: Net, services: seq<Service>, svc: Service)
    ensures var id := Unique(BaseId(svc.id), Ids(services));
            var host := if svc.host == "" then "127.0.0.1" else svc.host;
            var path := NormalizePath(if svc.path == "" then "/" + id else svc.path);
            Added(net, services, svc).Ok? <==>
            && Admissible(net, host, svc.port) && 1 <= svc.port <= 65535 && svc.bwLimit >= 0
            && (if svc.path == "" then IsServicePath(Unique(path, Paths(services)))
                else IsServicePath(path) && forall i :: 0 <= i < |services| ==> services[i].path != path)
            && forall raw :: raw in svc.hostnames ==> FreeHostnames(services, "", [raw])
  {
    var id := Unique(BaseId(svc.id), Ids(services));
    HostnamesAcceptedIff(services, "", svc.hostnames);
    NormalizedIsRooted("/" + id);
    NormalizedIsRooted(svc.path);
    UniqueIsNonempty(NormalizePath("/" + id), Paths(services));
    OneByOne(services, "", svc.hostnames);
    hide FreeHostnames, CheckedHostnames, NormalizePath, ValidatePath, Unique, BaseId;
    PathsAre(services);
  }

  lemma PathsAre(services: seq<Service>)
    ensures forall p :: p in Paths(services) <==> exists i :: 0 <= i < |services| && services[i].path == p
  {
    forall p
      ensures p in Paths(services) <==> exists i :: 0 <= i < |services| && services[i].path == p
    {
      if p in Paths(services) {
        var s :| s in services && s.path == p;
        var i :| 0 <= i < |services| && services[i] == s;
      }
    }
  }

  lemma OneByOne(services: seq<Service>, selfId: string, raws: seq<string>)
    ensures FreeHostnames(services, selfId, raws) <==> forall raw :: raw in raws ==> FreeHostnames(services, selfId, [raw])
  {
    hide NormalizeHostname;
    forall raw | raw in raws && FreeHostnames(services, selfId, raws)
      ensures FreeHostnames(services, selfId, [raw])
    {
      assert forall r :: r in [raw] ==> r == raw;
    }
    forall raw | raw in raws && FreeHostnames(services, selfId, [raw])
      ensures NormalizeHostname(raw).Some?
      ensures forall i :: 0 <= i < |services| && services[i].id != selfId ==>
                NormalizeHostname(raw).value !in services[i].hostnames
    {
      assert raw in [raw];
    }
  }

  /** What an accepted addition stores has passed the network's checks. */
  lemma AddedIsAdmissible(net: Net, services: seq<Service>, svc: Service)
    requires Added(net, services, svc).Ok?
    ensures var s := Added(net, services, svc).value;
            && Admissible(net, s.host, s.port) && 1 <= s.port <= 65535 && s.port == svc.port
            && s.host == if svc.host == "" then "127.0.0.1" else svc.host
  {
    hide NormalizePath, ValidatePath, Unique, CheckedHostnames, BaseId;
  }

  /** The text without the white space around it. */
  lemma TrimsTo(before: string, core: string, after: string)
    requires AllSpaces(before) && AllSpaces(after) && (core != "" ==> !IsSpace(core[0]) && !IsSpace(core[|core| - 1]))
    ensures TrimSpace(before + core + after) == core
  {
    if core == "" {
      assert before + core + after == before + after;
      BlankIsNothing(before + after);
    } else {
      assert before + core + after == before + (core + after) && (core + after)[0] == core[0];
      TrimLeftDrops(before, core + after);
      TrimRightDrops(core, after);
      hide TrimLeft, TrimRight;
    }
  }

  /** The name itself if it is free, else the first free one of name-2, name-3 and so on. */
  ghost predicate FirstFreeName(name: string, base: string, taken: set<string>) {
    name !in taken &&
    (name == base
     || (base in taken
         && exists n: nat :: n >= 2 && name == base + "-" + Decimal(n)
                             && forall m: nat :: 2 <= m < n ==> base + "-" + Decimal(m) in taken))
  }

  lemma UniqueIsFirstFree(base: string, taken: set<string>)
    ensures FirstFreeName(Unique(base, taken), base, taken)
  {
    hide Decimal;
    FirstFreeIsFirst(base, taken, 1);
    var n := FirstFree(base, taken, 1);
    assert forall m: nat :: 2 <= m < n ==> Numbered(base, m) in taken;
    assert n >= 2 ==> Numbered(base, 1) in taken;
    hide FirstFree;
    assert forall m: nat :: m >= 2 ==> Numbered(base, m) == base + "-" + Decimal(m);
  }

  /**
    * The ID an addition stores: the given one without white space around it, "service" if that
    * leaves nothing, with a number if it is taken; a path that is not given is made from the ID
    * in the same way.
    */
  lemma AddedNames(net: Net, services: seq<Service>, svc: Service, before: string, core: string, after: string)
    requires Added(net, services, svc).Ok? && svc.id == before + core + after
    requires AllSpaces(before) && AllSpaces(after) && (core != "" ==> !IsSpace(core[0]) && !IsSpace(core[|core| - 1]))
    ensures var s := Added(net, services, svc).value;
            && FirstFreeName(s.id, if core == "" then "service" else core, Ids(services))
            && (svc.path == "" ==> FirstFreeName(s.path, NormalizePath("/" + s.id), Paths(services)))
  {
    TrimsTo(before, core, after);
    UniqueIsFirstFree(BaseId(svc.id), Ids(services));
    UniqueIsFirstFree(NormalizePath("/" + Added(net, services, svc).value.id), Paths(services));
    hide NormalizePath, ValidatePath, Unique, CheckedHostnames, FirstFreeName, BackendOk, TrimSpace;
  }

  // ---------------------------------------------------------------- updates

  /** The field has a value that is not empty. */
  predicate Given(field: Option<string>) {
    field.Some? && field.value != ""
  }

  /** A given path is valid, and no service but this one has it. */
  predicate PathFree(services: seq<Service>, i: nat, u: Update) {
    Given(u.path) ==>
      var path := NormalizePath(u.path.value);
      IsServicePath(path) && forall j :: 0 <= j < |services| && j != i ==> services[j].path != path
  }

  lemma PathAcceptedIff(services: seq<Service>, i: nat, u: Update)
    ensures !PathRefused(services, i, u) <==> PathFree(services, i, u)
  {
    if Given(u.path) {
      NormalizedIsRooted(u.path.value);
    }
    hide NormalizePath, ValidatePath;
  }

  lemma BackendAcceptedIff(s: Service, u: Update, net: Net)
    ensures !BackendRefused(net, u) <==>
              (Given(u.host) ==> net.allowed(u.host.value)) && (u.port.Some? ==> 1 <= u.port.value <= 65535)
    ensures MergedBackend(s, u).host == if Given(u.host) then u.host.value else s.host
    ensures MergedBackend(s, u).port == if u.port.Some? then u.port.value else s.port
  {
  }

  /**
    * An update is accepted exactly if the service exists, a given host is allowed, a given port
    * and limit are in range, a given path is valid and no other service's, given hostnames are
    * hostnames no service of another ID has, and the backend that results is not the gateway.
    */
  lemma UpdatedIff(net: Net, services: seq<Service>, id: string, u: Update, i: nat)
    requires i < |services| && services[i].id == id && forall j :: 0 <= j < i ==> services[j].id != id
    ensures var host := if Given(u.host) then u.host.value else services[i].host;
            var port := if u.port.Some? then u.port.value else services[i].port;
            Updated(net, services, id, u).Ok? <==>
            && (Given(u.host) ==> net.allowed(u.host.value)) && !net.self(host, port)
            && (u.port.Some? ==> 1 <= u.port.value <= 65535) && (u.bwLimit.Some? ==> u.bwLimit.value >= 0)
            && PathFree(services, i, u)
            && (u.hostnames.Some? ==> FreeHostnames(services, id, u.hostnames.value))
    ensures Updated(net, services, id, u).Ok? ==> Updated(net, services, id, u).value == services[i := Merged(services[i], u)]
  {
    assert IndexOf(services, id) == i;
    hide FreeHostnames, CheckedHostnames, PathRefused, PathFree, BackendRefused, MergedBackend, IndexOf, Merged, Given;
    BackendAcceptedIff(services[i], u, net);
    PathAcceptedIff(services, i, u);
    if u.hostnames.Some? {
      HostnamesAcceptedIff(services, id, u.hostnames.value);
    }
  }

  /** And an ID no service has is refused. */
  lemma UnknownIsRefused(net: Net, services: seq<Service>, id: string, u: Update)
    requires forall j :: 0 <= j < |services| ==> services[j].id != id
    ensures Updated(net, services, id, u).Err?
  {
    hide Refused, Merged;
  }

  /** What an accepted update stores. */
  lemma UpdatedIsAdmissible(net: Net, services: seq<Service>, id: string, u: Update)
    requires Updated(net, services, id, u).Ok?
    ensures var i, after := IndexOf(services, id), Updated(net, services, id, u).value;
            && i < |services| && |after| == |services|
            && after[i].host == (if Given(u.host) then u.host.value else services[i].host)
            && after[i].port == (if u.port.Some? then u.port.value else services[i].port)
            && (Given(u.host) ==> net.allowed(after[i].host)) && !net.self(after[i].host, after[i].port)
            && forall j :: 0 <= j < |services| && j != i ==> after[j] == services[j]
  {
    var i := IndexOf(services, id);
    MergedKeeps(services[i], u);
    hide FreeHostnames, CheckedHostnames, PathRefused, IndexOf, Merged;
  }

  lemma OwnHostnamesAreFree(services: seq<Service>, i: nat)
    requires Good(services) && i < |services|
    ensures FreeHostnames(services, services[i].id, services[i].hostnames)
  {
    hide NormalizeHostname;
    assert GoodService(services[i]);
    forall raw, j | raw in services[i].hostnames && 0 <= j < |services| && services[j].id != services[i].id
      ensures raw !in services[j].hostnames
    {
      if i < j {
        assert Apart(services[i], services[j]);
      } else {
        assert Apart(services[j], services[i]);
      }
    }
  }

  lemma ResendChecks(services: seq<Service>, i: nat)
    requires Good(services) && i < |services|
    ensures GoodService(services[i]) && NormalizePath(services[i].path) == services[i].path && services[i].path != ""
    ensures forall j :: 0 <= j < |services| && j != i ==>
              services[j].path != services[i].path && services[j].id != services[i].id
  {
    NormalizeFixes(services[i].path);
    hide NormalizePath, ValidatePath, NormalList;
    forall j | 0 <= j < |services| && j != i
      ensures services[j].path != services[i].path && services[j].id != services[i].id
    {
      assert if i < j then Apart(services[i], services[j]) else Apart(services[j], services[i]);
    }
  }

  /**
    * Resending a service as it is changes nothing, and is refused only if its backend would be
    * refused today.
    */
  lemma ResendingChangesNothing(net: Net, services: seq<Service>, i: nat)
    requires Good(services) && i < |services|
    ensures var s := services[i];
            Updated(net, services, s.id, UpdateTo(s)) ==
            if Admissible(net, s.host, s.port) then Ok(services) else Err
  {
    var s := services[i];
    ResendChecks(services, i);
    OwnHostnamesAreFree(services, i);
    hide Updated, FreeHostnames, NormalizePath, Good;
    UpdatedIff(net, services, s.id, UpdateTo(s), i);
    MergedWithItself(s);
    assert services[i := s] == services;
    hide Merged, NormalList, ValidatePath;
  }

  lemma MergedWithItself(s: Service)
    requires GoodService(s)
    ensures Merged(s, UpdateTo(s)) == s
  {
    NormalizeFixes(s.path);
    KeptFixes(s.hostnames);
    hide NormalizePath, Kept, IsServicePath, NormalList;
  }

  // ---------------------------------------------------------------- edits of a file

  /** What one edit of a good file saves, if it saves anything. */
  lemma SavesWhat(net: Net, regex: Regex, e: Edit, doc: Doc)
    requires EditsServices(e) && GoodDoc(regex, doc)
    ensures var o, edited := Perform(net, regex, e, Document(doc), Document(doc)), ServiceEdit(net, e, LoadedServices(regex, doc));
            && (o.Save? <==> edited.Ok?)
            && (o.Save? ==> LoadedServices(regex, o.doc) == Rebooted(regex, edited.value))
  {
    ServiceEditOutcome(net, regex, e, doc);
    hide LoadedServices, ServiceEdit, Perform, GoodDoc, Rebooted;
    if Perform(net, regex, e, Document(doc), Document(doc)).Save? {
      ServiceEditIsRead(net, regex, e, doc);
    }
  }

  /** An accepted service is added behind the others, and nothing is saved of one that is not. */
  lemma AddingAdds(net: Net, regex: Regex, svc: Service, doc: Doc)
    requires GoodDoc(regex, doc)
    ensures var services := LoadedServices(regex, doc);
            var o := Perform(net, regex, AddService(svc), Document(doc), Document(doc));
            && (o.Save? <==> Added(net, services, svc).Ok?)
            && (o.Save? ==> LoadedServices(regex, o.doc) == Rebooted(regex, services + [Added(net, services, svc).value]))
  {
    SavesWhat(net, regex, AddService(svc), doc);
    hide LoadedServices, Added, Perform, GoodDoc, Rebooted;
  }

  /** An accepted update changes its service, and nothing is saved of one that is not. */
  lemma UpdatingUpdates(net: Net, regex: Regex, id: string, u: Update, doc: Doc)
    requires GoodDoc(regex, doc)
    ensures var services := LoadedServices(regex, doc);
            var o := Perform(net, regex, UpdateService(id, u), Document(doc), Document(doc));
            && (o.Save? <==> Updated(net, services, id, u).Ok?)
            && (o.Save? ==> LoadedServices(regex, o.doc) == Rebooted(regex, Updated(net, services, id, u).value))
  {
    SavesWhat(net, regex, UpdateService(id, u), doc);
    hide LoadedServices, Updated, Perform, GoodDoc, Rebooted;
  }

  /** A removal takes out the one service of the ID, and is refused if there is none. */
  lemma RemovingRemoves(net: Net, regex: Regex, id: string, doc: Doc)
    requires GoodDoc(regex, doc)
    ensures var services := LoadedServices(regex, doc);
            var o := Perform(net, regex, RemoveService(id), Document(doc), Document(doc));
            && (o.Save? <==> exists i :: 0 <= i < |services| && services[i].id == id)
            && forall i :: 0 <= i < |services| && services[i].id == id ==>
                 o.Save? && LoadedServices(regex, o.doc) == Rebooted(regex, services[..i] + services[i + 1..])
  {
    SavesWhat(net, regex, RemoveService(id), doc);
    var services := LoadedServices(regex, doc);
    GoodIdsDiffer(services);
    hide LoadedServices, Without, Perform, GoodDoc, Rebooted, Good;
    forall i | 0 <= i < |services| && services[i].id == id
      ensures Without(services, id) == services[..i] + services[i + 1..] && HasId(services, id)
    {
      assert services[i] in services;
      WithoutAround(services, id, i);
    }
  }

  lemma GoodIdsDiffer(services: seq<Service>)
    requires Good(services)
    ensures forall i, j :: 0 <= i < |services| && 0 <= j < |services| && i != j ==> services[i].id != services[j].id
  {
    hide GoodService, NoSharedHost;
    forall i, j | 0 <= i < |services| && 0 <= j < |services| && i != j
      ensures services[i].id != services[j].id
    {
      assert if i < j then Apart(services[i], services[j]) else Apart(services[j], services[i]);
    }
  }

  /** A layout that names every service exactly once is saved, any other is refused. */
  lemma ArrangingArranges(net: Net, regex: Regex, items: seq<Item>, doc: Doc)
    requires GoodDoc(regex, doc)
    ensures var services := LoadedServices(regex, doc);
            var o := Perform(net, regex, SetLayout(items), Document(doc), Document(doc));
            && (o.Save? <==>
                  && (forall id :: id in ItemIds(items) <==> id in Ids(services))
                  && forall i, j :: 0 <= i < j < |items| ==> items[i].id != items[j].id)
            && (o.Save? ==> LoadedServices(regex, o.doc) == Rebooted(regex, PlacedAll(services, items)))
  {
    SavesWhat(net, regex, SetLayout(items), doc);
    GoodIdsDiffer(LoadedServices(regex, doc));
    LayoutIsPermutation(LoadedServices(regex, doc), items);
    hide LoadedServices, CompleteLayout, Perform, GoodDoc, Rebooted, Good, ItemIds, Ids, PlacedAll;
  }

  // ---------------------------------------------------------------- over runs

  /** The services a file holds. */
  function ServicesIn(regex: Regex, file: File): seq<Service> {
    if file.Document? then LoadedServices(regex, file.doc) else []
  }

  /** The edit names this host as a backend; an addition may leave the default out. */
  predicate NamesHost(e: Edit, host: string) {
    || (e.AddService? && host == if e.svc.host == "" then "127.0.0.1" else e.svc.host)
    || (e.UpdateService? && Given(e.update.host) && e.update.host.value == host)
  }

  /** The host was there before, or the edit names it and the network allows it. */
  predicate HostChecked(net: Net, e: Edit, services: seq<Service>, s: Service) {
    (exists t :: t in services && t.host == s.host) || (NamesHost(e, s.host) && net.allowed(s.host))
  }

  /** The backend was there before, or the edit is an addition or update and it does not reach the gateway. */
  predicate BackendChecked(net: Net, e: Edit, services: seq<Service>, s: Service) {
    || (exists t :: t in services && t.host == s.host && t.port == s.port)
    || ((e.AddService? || e.UpdateService?) && !net.self(s.host, s.port))
  }

  lemma EditIsChecked(net: Net, e: Edit, services: seq<Service>, s: Service)
    requires EditsServices(e) && ServiceEdit(net, e, services).Ok? && s in ServiceEdit(net, e, services).value
    ensures HostChecked(net, e, services, s) && BackendChecked(net, e, services, s)
  {
    match e
    case AddService(svc) =>
      AddedIsAdmissible(net, services, svc);
      hide Added;
    case UpdateService(id, u) =>
      UpdatedIsAdmissible(net, services, id, u);
      hide Updated, IndexOf;
      var after, i := Updated(net, services, id, u).value, IndexOf(services, id);
      var j :| 0 <= j < |after| && after[j] == s;
      assert services[j] in services;
    case RemoveService(id) =>
      WithoutMembers(services, id, s);
      hide Without;
    case SetLayout(items) =>
      var after := PlacedAll(services, items);
      hide CompleteLayout, ItemFor;
      var j :| 0 <= j < |after| && after[j] == s;
      assert services[j] in services;
  }

  lemma AttemptIsChecked(regex: Regex, a: Attempt, file: File, s: Service)
    requires GoodFile(regex, file) && s in ServicesIn(regex, AfterAttempt(regex, a, file))
    ensures || s in ServicesIn(regex, file)
            || (a.written && HostChecked(a.net, a.edit, ServicesIn(regex, file), s)
                && BackendChecked(a.net, a.edit, ServicesIn(regex, file), s))
  {
    hide HostChecked, BackendChecked, LoadedServices, ServiceEdit;
    var o := Perform(a.net, regex, a.edit, file, file);
    if a.written && o.Save? {
      if EditsServices(a.edit) {
        SavedServicesAreChecked(regex, a, file, s);
      } else if a.edit.CreateConfig? {
        NewDocHasNone(regex, a.edit.hash);
      } else {
        EditFootprint(a.net, regex, a.edit, file.doc);
        SameServices(regex, file.doc, o.doc);
      }
    }
  }

  lemma NewDocHasNone(regex: Regex, hash: string)
    ensures LoadedServices(regex, NewDoc(hash)) == []
  {
  }

  lemma SameServices(regex: Regex, a: Doc, b: Doc)
    requires a.services == b.services
    ensures LoadedServices(regex, a) == LoadedServices(regex, b)
  {
  }

  lemma SavedServicesAreChecked(regex: Regex, a: Attempt, file: File, s: Service)
    requires GoodFile(regex, file) && EditsServices(a.edit) && Perform(a.net, regex, a.edit, file, file).Save?
    requires s in ServicesIn(regex, Document(Perform(a.net, regex, a.edit, file, file).doc))
    ensures HostChecked(a.net, a.edit, ServicesIn(regex, file), s)
    ensures BackendChecked(a.net, a.edit, ServicesIn(regex, file), s)
  {
    assert file.Document? by {
      hide ServiceEdit, LoadedServices;
    }
    ServiceEditIsRead(a.net, regex, a.edit, file.doc);
    ServiceEditOutcome(a.net, regex, a.edit, file.doc);
    hide LoadedServices, ServiceEdit, Perform, GoodDoc, HostChecked, BackendChecked, LoadedBootstrap;
    var edited := ServiceEdit(a.net, a.edit, LoadedServices(regex, file.doc)).value;
    var i :| 0 <= i < |edited| && Rebooted(regex, edited)[i] == s;
    EditIsChecked(a.net, a.edit, LoadedServices(regex, file.doc), edited[i]);
    SameBackend(a.net, a.edit, LoadedServices(regex, file.doc), edited[i], s);
  }

  lemma SameBackend(net: Net, e: Edit, services: seq<Service>, s: Service, t: Service)
    requires HostChecked(net, e, services, s) && BackendChecked(net, e, services, s) && s.host == t.host && s.port == t.port
    ensures HostChecked(net, e, services, t) && BackendChecked(net, e, services, t)
  {
  }

  /** The host stood in the file at first, or a written edit named it when the network allowed it. */
  ghost predicate HostVetted(regex: Regex, attempts: seq<Attempt>, file: File, host: string) {
    || (exists t :: t in ServicesIn(regex, file) && t.host == host)
    || (exists a :: a in attempts && a.written && NamesHost(a.edit, host) && a.net.allowed(host))
  }

  /** The backend stood there at first, or a written addition or update found that it is not the gateway. */
  ghost predicate BackendVetted(regex: Regex, attempts: seq<Attempt>, file: File, host: string, port: int) {
    || (exists t :: t in ServicesIn(regex, file) && t.host == host && t.port == port)
    || (exists a :: a in attempts && a.written && (a.edit.AddService? || a.edit.UpdateService?) && !a.net.self(host, port))
  }

  /**
    * Nothing gets in unchecked: over every run of edits, failed ones included, each backend in
    * the file was there from the start or passed both network checks when an edit wrote it.
    */
  lemma {:induction false} EveryBackendIsVetted(regex: Regex, attempts: seq<Attempt>, file: File, s: Service)
    requires GoodFile(regex, file) && s in ServicesIn(regex, AfterAll(regex, attempts, file))
    ensures HostVetted(regex, attempts, file, s.host) && BackendVetted(regex, attempts, file, s.host, s.port)
    decreases |attempts|
  {
    hide GoodFile, Perform, ServicesIn, AfterAttempt, HostChecked, BackendChecked, NamesHost;
    if attempts != [] {
      var a, next := attempts[0], AfterAttempt(regex, attempts[0], file);
      GoodAfter(regex, a, file);
      EveryBackendIsVetted(regex, attempts[1..], next, s);
      assert a in attempts && forall x :: x in attempts[1..] ==> x in attempts;
      if t :| t in ServicesIn(regex, next) && t.host == s.host {
        AttemptIsChecked(regex, a, file, t);
        CheckedIsVetted(regex, attempts, file, a, t);
      }
      if t :| t in ServicesIn(regex, next) && t.host == s.host && t.port == s.port {
        AttemptIsChecked(regex, a, file, t);
        CheckedIsVetted(regex, attempts, file, a, t);
      }
    }
  }

  lemma GoodAfter(regex: Regex, a: Attempt, file: File)
    requires GoodFile(regex, file)
    ensures GoodFile(regex, AfterAttempt(regex, a, file))
  {
    EditKeepsGood(a.net, regex, a.edit, file);
    hide GoodFile, Perform;
  }

  lemma CheckedIsVetted(regex: Regex, attempts: seq<Attempt>, file: File, a: Attempt, t: Service)
    requires a in attempts
    requires || t in ServicesIn(regex, file)
             || (a.written && HostChecked(a.net, a.edit, ServicesIn(regex, file), t)
                 && BackendChecked(a.net, a.edit, ServicesIn(regex, file), t))
    ensures HostVetted(regex, attempts, file, t.host) && BackendVetted(regex, attempts, file, t.host, t.port)
  {
    hide ServicesIn, NamesHost;
  }

  // ---------------------------------------------------------------- creating and loading

  /** A password hash is bcrypt's, or 64 hexadecimal digits; white space around it does not matter. */
  lemma PasswordHashesAre(before: string, core: string, after: string)
    requires AllSpaces(before) && AllSpaces(after) && (core != "" ==> !IsSpace(core[0]) && !IsSpace(core[|core| - 1]))
    ensures IsValidPasswordHash(before + core + after) <==>
            || (|core| == 60 && core[0] == '$' && core[1] == '2')
            || (|core| == 64 && forall i :: 0 <= i < 64 ==> core[i] in "0123456789abcdefABCDEF")
  {
    TrimsTo(before, core, after);
    hide TrimSpace;
    assert |core| == 60 ==> (core[..2] == "$2" <==> core[0] == '$' && core[1] == '2');
    assert |core| == 64 ==> forall i :: 0 <= i < 64 ==> core[i] in core;
    forall c: char
      ensures IsHexDigit(c) <==> c in "0123456789abcdefABCDEF"
    {
      HexDigitsAre(c);
    }
    hide IsHexDigit;
  }

  lemma HexDigitsAre(c: char)
    ensures IsHexDigit(c) <==> c in "0123456789abcdefABCDEF"
  {
    var digits := "0123456789abcdefABCDEF";
    if IsHexDigit(c) {
      var i := if IsDigit(c) then c as int - '0' as int
               else if 'a' <= c <= 'f' then c as int - 'a' as int + 10
               else c as int - 'A' as int + 16;
      assert digits[i] == c;
    }
  }

  /** Creating an account where there is none leaves exactly its password, and no services. */
  lemma CreationGivesAccount(net: Net, regex: Regex, hash: string)
    requires IsValidPasswordHash(hash)
    ensures var after := AfterAttempt(regex, Attempt(net, CreateConfig(hash), true), Missing);
            && after.Document? && AuthOf(after.doc) == RawAuth(Some(hash), None, map[])
            && ServicesIn(regex, after) == [] && Load(regex, after) == Ok(Config([], ""))
  {
    NewDocHasNone(regex, hash);
    hide IsValidPasswordHash, AcceptedAll;
  }

  /** Accounts are created only with a valid hash where there is none, and removed only where there is one. */
  lemma AccountsComeAndGo(net: Net, regex: Regex, hash: string, file: File)
    ensures var created := AfterAttempt(regex, Attempt(net, CreateConfig(hash), true), file);
            created != file <==> IsValidPasswordHash(hash) && file.Missing?
    ensures AfterAttempt(regex, Attempt(net, RemoveConfig, true), file) == Missing
  {
    hide IsValidPasswordHash;
  }

  /** A service in a file loads if its path is not blank and valid once normalized. */
  predicate Loadable(s: Service) {
    (exists i :: 0 <= i < |s.path| && !IsSpace(s.path[i])) && IsServicePath(NormalizePath(s.path))
  }

  lemma {:induction false} BlankTrims(s: string)
    ensures TrimLeft(s) == "" <==> forall i :: 0 <= i < |s| ==> IsSpace(s[i])
  {
    if s != [] && IsSpace(s[0]) {
      BlankTrims(s[1..]);
      assert forall i :: 1 <= i < |s| ==> s[i] == s[1..][i - 1];
    }
  }

  lemma NothingToTrim(s: string)
    requires s != "" && !IsSpace(s[0])
    ensures TrimRight(s) != ""
    decreases |s|
  {
    if IsSpace(s[|s| - 1]) {
      NothingToTrim(s[..|s| - 1]);
    }
  }

  lemma BlankIff(s: string)
    ensures TrimSpace(s) == "" <==> forall i :: 0 <= i < |s| ==> IsSpace(s[i])
  {
    BlankTrims(s);
    TrimLeftResult(s);
    if TrimLeft(s) != "" {
      NothingToTrim(TrimLeft(s));
    }
  }

  /** A field missing from the document has its zero value. */
  lemma DecodedIs(raw: RawService)
    ensures var s := Decoded(raw);
            && s.id == (if raw.id.Some? then raw.id.value else "") && s.name == (if raw.name.Some? then raw.name.value else "")
            && s.description == (if raw.description.Some? then raw.description.value else "")
            && s.host == (if raw.host.Some? then raw.host.value else "")
            && s.port == (if raw.port.Some? then raw.port.value else 0)
            && s.path == (if raw.path.Some? then raw.path.value else "")
            && s.backendPath == (if raw.backendPath.Some? then raw.backendPath.value else "")
            && s.webSocket == (raw.webSocket == Some(true)) && s.rootAbsolute == (raw.rootAbsolute == Some(true))
            && s.hostnames == (if raw.hostnames.Some? then raw.hostnames.value else [])
            && s.category == (if raw.category.Some? then raw.category.value else "")
            && s.order == (if raw.order.Some? then raw.order.value else 0)
            && s.bwLimit == (if raw.bwLimit.Some? then raw.bwLimit.value else 0) && s.bootstrap == raw.bootstrap
  {
  }

  /** A bootstrap block is usable if the source its mode names has a token, and its pattern is one. */
  predicate Usable(regex: Regex, b: Bootstrap) {
    var mode := ToLower(TrimSpace(b.mode));
    && mode in ["static", "file", "log"]
    && (mode == "static" ==> TrimSpace(b.tokenValue) != "") && (mode == "file" ==> TrimSpace(b.tokenFile) != "")
    && (mode == "log" ==> TrimSpace(b.tokenLog) != "")
    && (TrimSpace(b.tokenRegex) == "" || regex(TrimSpace(b.tokenRegex)))
  }

  /** Only usable blocks load, with mode, parameter and pattern normalized and the tokens as they stand. */
  lemma BootstrapsAre(regex: Regex, b: Option<Bootstrap>)
    ensures LoadedBootstrap(regex, b).Some? <==> b.Some? && Usable(regex, b.value)
    ensures LoadedBootstrap(regex, b).Some? ==>
              var c := LoadedBootstrap(regex, b).value;
              && c.mode == ToLower(TrimSpace(b.value.mode)) && c.param == TrimSpace(b.value.param)
              && TrimSpace(c.tokenRegex) == TrimSpace(b.value.tokenRegex)
              && c.tokenValue == b.value.tokenValue && c.tokenFile == b.value.tokenFile && c.tokenLog == b.value.tokenLog
  {
    if b.Some? {
      TrimSpaceTrims(b.value.tokenRegex);
      TrimSpaceFixes(TrimSpace(b.value.tokenRegex));
      hide TrimSpace, ToLower;
      ModesDiffer(ToLower(TrimSpace(b.value.mode)));
    }
  }

  lemma ModesDiffer(mode: string)
    ensures "static" != "file" && "static" != "log" && "file" != "log"
    ensures mode in ["static", "file", "log"] <==> mode == "static" || mode == "file" || mode == "log"
  {
    assert |"static"| == 6 && |"file"| == 4 && |"log"| == 3;
  }

  /** What one service loads as: the host filled in, path and hostnames normalized, the rest as it stands. */
  lemma AcceptedIs(regex: Regex, s: Service)
    ensures Accepted(regex, s).Some? <==> Loadable(s)
    ensures Accepted(regex, s).Some? ==>
              var t := Accepted(regex, s).value;
              && t.host == (if s.host == "" then "127.0.0.1" else s.host) && t.path == NormalizePath(s.path)
              && NormalList(t.hostnames)
              && (forall h :: h in t.hostnames <==> exists raw :: raw in s.hostnames && NormalizeHostname(raw) == Some(h))
              && t.(host := s.host, path := s.path, hostnames := s.hostnames, bootstrap := s.bootstrap) == s
  {
    BlankIff(s.path);
    NormalizedIsRooted(s.path);
    hide ValidatePath, NormalizePath, TrimSpace, Kept, NormalizeHostname, LoadedBootstrap;
    forall h
      ensures h in Kept(s.hostnames) <==> exists raw :: raw in s.hostnames && NormalizeHostname(raw) == Some(h)
    {
      KeptExactly(s.hostnames, h);
    }
    KeptExactly(s.hostnames, "");
  }

  /** A document loads, with its default service if one of the services loaded has that ID, and without any otherwise. */
  lemma DefaultIs(regex: Regex, file: File)
    ensures Load(regex, file).Ok? <==> file.Document?
    ensures file.Document? ==>
              var c, given := Load(regex, file).value, file.doc.defaultService;
              && c.services == LoadedServices(regex, file.doc)
              && (c.defaultService != "" ==>
                    given == Some(c.defaultService) && exists s :: s in c.services && s.id == c.defaultService)
              && (given.Some? && (exists s :: s in c.services && s.id == given.value) ==> c.defaultService == given.value)
  {
    hide LoadedServices;
  }

  /** What saving leaves out of a service: empty fields of these kinds, and limits that are none. */
  lemma OmittedAre(s: Service)
    ensures var raw := Serialized(s);
            && (raw.description == None <==> s.description == "") && (raw.backendPath == None <==> s.backendPath == "")
            && (raw.rootAbsolute == None <==> !s.rootAbsolute) && (raw.hostnames == None <==> s.hostnames == [])
            && (raw.category == None <==> s.category == "") && (raw.bwLimit == None <==> s.bwLimit <= 0)
            && (raw.bootstrap == None <==> s.bootstrap == None)
            && raw.id.Some? && raw.name.Some? && raw.host.Some? && raw.port.Some? && raw.path.Some?
            && raw.webSocket.Some? && raw.order.Some?
  {
  }

  /** Exactly the loadable services load, each once and in order: `at` lists where they stand. */
  lemma {:induction false} LoadsExactly(regex: Regex, ss: seq<Service>) returns (at: seq<nat>)
    ensures forall j :: j in at <==> 0 <= j < |ss| && Loadable(ss[j])
    ensures forall i :: 0 <= i < |at| ==> at[i] < |ss|
    ensures forall i, j :: 0 <= i < j < |at| ==> at[i] < at[j]
    ensures |AcceptedAll(regex, ss)| == |at|
    ensures forall i :: 0 <= i < |at| ==> Some(AcceptedAll(regex, ss)[i]) == Accepted(regex, ss[at[i]])
  {
    hide Accepted, Loadable;
    if ss == [] {
      at := [];
    } else {
      var n := |ss| - 1;
      at := LoadsExactly(regex, ss[..n]);
      AcceptedIs(regex, ss[n]);
      AcceptOneMore(regex, ss, n);
      hide AcceptedAll;
      assert ss[..n + 1] == ss;
      if Loadable(ss[n]) {
        at := at + [n];
      }
    }
  }
}
