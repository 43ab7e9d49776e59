/**
  * What every sequence of edits keeps true of a configuration file, and what each edit leaves
  * alone.
  */
module ConfigInvariant {
  import opened Basics
  import opened Text
  import opened ServicePaths
  import opened Hostnames
  import opened UserConfig
  import opened ConfigEdits

  // ---------------------------------------------------------------- the invariant

  predicate GoodService(s: Service) {
    && s.id != "" && IsServicePath(s.path) && s.host != ""
    && 1 <= s.port <= 65535 && s.bwLimit >= 0 && NormalList(s.hostnames)
  }

  predicate NoSharedHost(a: Service, b: Service) {
    forall h :: h in a.hostnames ==> h !in b.hostnames
  }

  predicate Apart(a: Service, b: Service) {
    a.id != b.id && a.path != b.path && NoSharedHost(a, b)
  }

  /** Each service well-formed; IDs, paths and hostnames shared by no two. */
  predicate Good(services: seq<Service>) {
    && (forall i :: 0 <= i < |services| ==> GoodService(services[i]))
    && (forall i, j :: 0 <= i < j < |services| ==> Apart(services[i], services[j]))
  }

  predicate DefaultNames(doc: Doc, services: seq<Service>) {
    Or(doc.defaultService, "") != "" ==> HasId(services, doc.defaultService.value)
  }

  /** Every service in the document is loaded, all are good, and the default is one of them. */
  ghost predicate GoodDoc(regex: Regex, doc: Doc) {
    var services := LoadedServices(regex, doc);
    |services| == |Or(doc.services, [])| && Good(services) && DefaultNames(doc, services)
  }

  ghost predicate GoodFile(regex: Regex, file: File) {
    !file.Garbled? && (file.Document? ==> GoodDoc(regex, file.doc))
  }

  // ---------------------------------------------------------------- edits keep services good

  lemma ApartSymmetric(a: Service, b: Service)
    requires Apart(a, b)
    ensures Apart(b, a)
  {
  }

  lemma AddedIsGood(net: Net, services: seq<Service>, svc: Service)
    requires Added(net, services, svc).Ok?
    ensures GoodService(Added(net, services, svc).value)
  {
    hide Kept, Dropped, Collides, ValidatePath, NormalizePath, Unique, NormalList;
    var s := Added(net, services, svc).value;
    KeptExactly(svc.hostnames, "");
    UniqueIsNonempty(BaseId(svc.id), Ids(services));
    if svc.path == "" {
      NormalizedIsRooted("/" + s.id);
      UniqueIsNonempty(NormalizePath("/" + s.id), Paths(services));
    } else {
      NormalizedIsRooted(svc.path);
    }
  }

  lemma UniqueIsNonempty(base: string, taken: set<string>)
    requires base != ""
    ensures Unique(base, taken) != ""
  {
  }

  lemma AddedIsApart(net: Net, services: seq<Service>, svc: Service, t: Service)
    requires Good(services) && t in services && Added(net, services, svc).Ok?
    ensures Apart(t, Added(net, services, svc).value)
  {
    hide Kept, Dropped, ValidatePath, NormalizePath, Unique, NormalList, IsServicePath;
    var s := Added(net, services, svc).value;
    UniqueIsNew(BaseId(svc.id), Ids(services));
    assert t.id in Ids(services) && t.path in Paths(services) && GoodService(t);
    if svc.path == "" {
      UniqueIsNew(NormalizePath("/" + s.id), Paths(services));
    }
    assert !Collides(services, "", s.hostnames);
  }

  lemma AppendKeepsGood(services: seq<Service>, s: Service)
    requires Good(services) && GoodService(s) && forall t :: t in services ==> Apart(t, s)
    ensures Good(services + [s])
  {
    hide GoodService, Apart;
  }

  lemma AddKeepsGood(net: Net, services: seq<Service>, svc: Service)
    requires Good(services) && Added(net, services, svc).Ok?
    ensures Good(services + [Added(net, services, svc).value])
  {
    hide *;
    AddedIsGood(net, services, svc);
    forall t | t in services
      ensures Apart(t, Added(net, services, svc).value)
    {
      AddedIsApart(net, services, svc, t);
    }
    AppendKeepsGood(services, Added(net, services, svc).value);
  }

  lemma MergedIsGood(net: Net, services: seq<Service>, i: nat, u: Update)
    requires i < |services| && GoodService(services[i]) && !Refused(net, services, i, u)
    ensures GoodService(Merged(services[i], u))
  {
    hide Kept, Dropped, Collides, ValidatePath, NormalizePath, NormalList;
    if u.hostnames.Some? {
      KeptExactly(u.hostnames.value, "");
    }
    if Or(u.path, "") != "" {
      NormalizedIsRooted(u.path.value);
    }
  }

  lemma MergedIsApart(net: Net, services: seq<Service>, i: nat, u: Update, j: nat)
    requires Good(services) && i < |services| && j < |services| && j != i && !Refused(net, services, i, u)
    ensures Apart(services[j], Merged(services[i], u))
  {
    hide Kept, Dropped, ValidatePath, NormalizePath, GoodService;
    var s, t, m := services[i], services[j], Merged(services[i], u);
    assert Apart(t, s) by {
      if i < j {
        ApartSymmetric(s, t);
      }
    }
    if u.hostnames.Some? {
      assert !Collides(services, s.id, m.hostnames);
    }
  }

  lemma ReplaceKeepsGood(services: seq<Service>, i: nat, s: Service)
    requires Good(services) && i < |services| && GoodService(s)
    requires forall j :: 0 <= j < |services| && j != i ==> Apart(services[j], s) && Apart(s, services[j])
    ensures Good(services[i := s])
  {
    hide GoodService, Apart;
  }

  lemma UpdateKeepsGood(net: Net, services: seq<Service>, id: string, u: Update)
    requires Good(services) && Updated(net, services, id, u).Ok?
    ensures Good(Updated(net, services, id, u).value)
  {
    hide Refused, Merged, GoodService, Apart;
    var i := IndexOf(services, id);
    MergedIsGood(net, services, i, u);
    forall j | 0 <= j < |services| && j != i
      ensures Apart(services[j], Merged(services[i], u)) && Apart(Merged(services[i], u), services[j])
    {
      MergedIsApart(net, services, i, u, j);
      ApartSymmetric(services[j], Merged(services[i], u));
    }
    ReplaceKeepsGood(services, i, Merged(services[i], u));
  }

  lemma {:induction false} WithoutMembers(services: seq<Service>, id: string, s: Service)
    ensures s in Without(services, id) <==> s in services && s.id != id
  {
    if services != [] {
      var init, last := services[..|services| - 1], services[|services| - 1];
      WithoutMembers(init, id, s);
      assert s in services <==> s in init || s == last;
    }
  }

  lemma {:induction false} RemoveKeepsGood(services: seq<Service>, id: string)
    requires Good(services)
    ensures Good(Without(services, id))
  {
    hide GoodService, Apart;
    if services != [] {
      var init, last := services[..|services| - 1], services[|services| - 1];
      RemoveKeepsGood(init, id);
      if last.id != id {
        forall t | t in Without(init, id)
          ensures Apart(t, last)
        {
          WithoutMembers(init, id, t);
        }
        AppendKeepsGood(Without(init, id), last);
      }
    }
  }

  lemma LayoutKeepsGood(services: seq<Service>, items: seq<Item>)
    requires Good(services)
    ensures Good(PlacedAll(services, items))
  {
    hide IsServicePath, NormalList, ItemFor;
  }

  /** Every service edit that succeeds on good services gives good services. */
  lemma ServiceEditKeepsGood(net: Net, e: Edit, services: seq<Service>)
    requires e.AddService? || e.UpdateService? || e.RemoveService? || e.SetLayout?
    requires Good(services) && ServiceEdit(net, e, services).Ok?
    ensures Good(ServiceEdit(net, e, services).value)
  {
    hide Good, Added, Updated, Without, PlacedAll, HasId, CompleteLayout;
    match e
    case AddService(svc) => AddKeepsGood(net, services, svc);
    case UpdateService(id, update) => UpdateKeepsGood(net, services, id, update);
    case RemoveService(id) => RemoveKeepsGood(services, id);
    case SetLayout(items) => LayoutKeepsGood(services, items);
  }

  // ---------------------------------------------------------------- what a saved edit loads as

  function Rebooted(regex: Regex, services: seq<Service>): (r: seq<Service>)
    ensures |r| == |services|
    ensures forall i :: 0 <= i < |r| ==> r[i] == services[i].(bootstrap := LoadedBootstrap(regex, services[i].bootstrap))
  {
    seq(|services|, i requires 0 <= i < |services| =>
      services[i].(bootstrap := LoadedBootstrap(regex, services[i].bootstrap)))
  }

  lemma GoodReloads(regex: Regex, s: Service)
    requires GoodService(s)
    ensures Reloaded(regex, s) == Some(s.(bootstrap := LoadedBootstrap(regex, s.bootstrap)))
  {
    hide TrimSpace, ValidatePath, NormalizePath, LoadedBootstrap, Kept, Decoded, Serialized;
    DecodedSerialized(s);
    NormalizeFixes(s.path);
    ServicePathIsNotBlank(s.path);
    KeptFixes(s.hostnames);
  }

  /** Good services load as they were saved, except for bootstrap blocks that loading normalizes. */
  lemma {:induction false} GoodServicesReload(regex: Regex, services: seq<Service>)
    requires forall i :: 0 <= i < |services| ==> GoodService(services[i])
    ensures AcceptedAll(regex, DecodedAll(SerializedAll(services))) == Rebooted(regex, services)
  {
    hide Accepted, Decoded, Serialized, GoodService, LoadedBootstrap;
    if services != [] {
      var init, last := services[..|services| - 1], services[|services| - 1];
      GoodServicesReload(regex, init);
      GoodReloads(regex, last);
      assert DecodedAll(SerializedAll(services))[..|init|] == DecodedAll(SerializedAll(init));
    }
  }

  lemma RebootKeepsGood(regex: Regex, services: seq<Service>)
    requires Good(services)
    ensures Good(Rebooted(regex, services))
  {
    hide IsServicePath, NormalList, LoadedBootstrap;
  }

  lemma RebootKeepsIds(regex: Regex, services: seq<Service>, id: string)
    requires HasId(services, id)
    ensures HasId(Rebooted(regex, services), id)
  {
    hide LoadedBootstrap;
    var i :| 0 <= i < |services| && services[i].id == id;
    assert Rebooted(regex, services)[i] in Rebooted(regex, services);
  }

  /** An edit that keeps services good and the default named keeps the document good. */
  lemma SavedIsGood(regex: Regex, doc: Doc, services: seq<Service>)
    requires Good(services) && doc.services == Some(SerializedAll(services)) && DefaultNames(doc, services)
    ensures LoadedServices(regex, doc) == Rebooted(regex, services) && GoodDoc(regex, doc)
  {
    GoodServicesReload(regex, services);
    RebootKeepsGood(regex, services);
    hide Good, HasId, AcceptedAll, Rebooted;
    if Or(doc.defaultService, "") != "" {
      RebootKeepsIds(regex, services, doc.defaultService.value);
    }
  }

  lemma EditKeepsIds(net: Net, e: Edit, services: seq<Service>, id: string)
    requires e.AddService? || e.UpdateService? || e.SetLayout?
    requires ServiceEdit(net, e, services).Ok? && HasId(services, id)
    ensures HasId(ServiceEdit(net, e, services).value, id)
  {
    hide Added, Refused, CompleteLayout;
    var i :| 0 <= i < |services| && services[i].id == id;
    var after := ServiceEdit(net, e, services).value;
    if e.UpdateService? {
      MergedKeeps(services[IndexOf(services, e.id)], e.update);
    }
    hide Merged;
    assert after[i].id == id && after[i] in after;
  }

  /** Whether an edit goes through the loaded services. */
  predicate EditsServices(e: Edit) {
    e.AddService? || e.UpdateService? || e.RemoveService? || e.SetLayout?
  }

  lemma ServiceEditOutcome(net: Net, regex: Regex, e: Edit, doc: Doc)
    requires EditsServices(e)
    ensures var services, o := ServiceEdit(net, e, LoadedServices(regex, doc)),
                               Perform(net, regex, e, Document(doc), Document(doc));
            && !o.Panic? && !o.Delete? && (o.Save? <==> services.Ok?)
            && (o.Save? ==>
                  && o.doc.services == Some(SerializedAll(services.value))
                  && o.doc.auth == doc.auth && o.doc.rest == doc.rest
                  && o.doc.defaultService ==
                     if e.RemoveService? && !DefaultNames(doc, services.value) then None else doc.defaultService)
  {
    hide LoadedServices, ServiceEdit, SerializedAll, HasId;
  }

  /** Read your writes: a service edit that is saved is what the next load sees. */
  lemma ServiceEditIsRead(net: Net, regex: Regex, e: Edit, doc: Doc)
    requires EditsServices(e) && GoodDoc(regex, doc)
    requires Perform(net, regex, e, Document(doc), Document(doc)).Save?
    ensures var after, edited := Perform(net, regex, e, Document(doc), Document(doc)).doc,
                                 ServiceEdit(net, e, LoadedServices(regex, doc));
            GoodDoc(regex, after) && edited.Ok? && LoadedServices(regex, after) == Rebooted(regex, edited.value)
  {
    ServiceEditOutcome(net, regex, e, doc);
    hide LoadedServices, ServiceEdit, Good, HasId, Perform, Rebooted;
    var services := LoadedServices(regex, doc);
    var after, edited := Perform(net, regex, e, Document(doc), Document(doc)).doc, ServiceEdit(net, e, services).value;
    ServiceEditKeepsGood(net, e, services);
    if !e.RemoveService? && Or(doc.defaultService, "") != "" {
      EditKeepsIds(net, e, services, doc.defaultService.value);
    }
    SavedIsGood(regex, after, edited);
  }

  // ---------------------------------------------------------------- every run of edits

  lemma NewDocIsGood(regex: Regex, hash: string)
    ensures GoodDoc(regex, NewDoc(hash))
  {
  }

  lemma SameServicesStayGood(regex: Regex, doc: Doc, after: Doc)
    requires GoodDoc(regex, doc) && after.services == doc.services && after.defaultService == doc.defaultService
    ensures GoodDoc(regex, after)
  {
    hide AcceptedAll, Good, HasId;
  }

  /** One edit: a good file stays good, and no edit panics. */
  lemma EditKeepsGood(net: Net, regex: Regex, e: Edit, file: File)
    requires GoodFile(regex, file)
    ensures var o := Perform(net, regex, e, file, file);
            GoodFile(regex, Settled(file, o)) && !o.Panic?
  {
    hide GoodDoc, ServiceEdit, LoadedServices, IsValidPasswordHash, ForgetDefault, SerializedAll;
    var o := Perform(net, regex, e, file, file);
    if EditsServices(e) {
      if file.Document? {
        ServiceEditOutcome(net, regex, e, file.doc);
        if o.Save? {
          ServiceEditIsRead(net, regex, e, file.doc);
        }
      }
    } else if o.Save? {
      if e.CreateConfig? {
        NewDocIsGood(regex, e.hash);
      } else {
        SameServicesStayGood(regex, file.doc, o.doc);
      }
    }
  }

  /** One edit of a sequence: what the network says at the time, and whether the write succeeds. */
  datatype Attempt = Attempt(net: Net, edit: Edit, written: bool)

  function AfterAttempt(regex: Regex, a: Attempt, file: File): File {
    if a.written then Settled(file, Perform(a.net, regex, a.edit, file, file)) else file
  }

  function AfterAll(regex: Regex, attempts: seq<Attempt>, file: File): File {
    if attempts == [] then file else AfterAll(regex, attempts[1..], AfterAttempt(regex, attempts[0], file))
  }

  /**
    * The inductive invariant: whatever is attempted on it, in whatever order and with
    * whatever failures, a configuration that started out absent or good stays good: IDs are
    * nonempty and unique, paths valid and unique, ports in range, limits not negative,
    * hostnames normalized and shared by no two services, and the default, if any, exists.
    */
  lemma {:induction false} EveryRunKeepsGood(regex: Regex, attempts: seq<Attempt>, file: File)
    requires GoodFile(regex, file)
    ensures GoodFile(regex, AfterAll(regex, attempts, file))
  {
    hide GoodFile, Perform;
    if attempts != [] {
      EditKeepsGood(attempts[0].net, regex, attempts[0].edit, file);
      EveryRunKeepsGood(regex, attempts[1..], AfterAttempt(regex, attempts[0], file));
    }
  }

  // ---------------------------------------------------------------- what edits leave alone

  /**
    * Account edits never touch the services and service edits never touch the account, nor
    * does either touch anything else the operator wrote into the file; and of the account,
    * each edit changes its own field only.
    */
  lemma EditFootprint(net: Net, regex: Regex, e: Edit, doc: Doc)
    requires Perform(net, regex, e, Document(doc), Document(doc)).Save?
    ensures var after := Perform(net, regex, e, Document(doc), Document(doc)).doc;
            && after.rest == doc.rest
            && (if EditsServices(e) then after.auth == doc.auth
                else after.services == doc.services && after.defaultService == doc.defaultService
                     && AuthOf(after).rest == AuthOf(doc).rest)
            && (e.SetPassword? ==> AuthOf(after).passwordHash == Some(e.hash)
                                   && AuthOf(after).totpSecret == AuthOf(doc).totpSecret)
            && (e.SetTotp? ==> AuthOf(after).totpSecret == (if e.secret == "" then None else Some(e.secret))
                               && AuthOf(after).passwordHash == AuthOf(doc).passwordHash)
  {
    if EditsServices(e) {
      ServiceEditOutcome(net, regex, e, doc);
    }
    hide ServiceEdit, LoadedServices, ForgetDefault, SerializedAll;
  }

  /** Creating never overwrites an account, and no other edit brings one into being. */
  lemma AccountsAreNotClobbered(net: Net, regex: Regex, e: Edit, file: File)
    ensures e.CreateConfig? && !file.Missing? ==> Settled(file, Perform(net, regex, e, file, file)) == file
    ensures !e.CreateConfig? && file.Missing? ==> Settled(file, Perform(net, regex, e, file, file)) == file
    ensures file.Garbled? && !e.RemoveConfig? ==> Settled(file, Perform(net, regex, e, file, file)) == file
  {
    hide ServiceEdit, LoadedServices, ForgetDefault, IsValidPasswordHash;
  }

  /** The password hash that the password edits of a run leave behind. */
  function LastPassword(attempts: seq<Attempt>, hash: Option<string>): Option<string> {
    if attempts == [] then hash
    else
      var a := attempts[0];
      LastPassword(attempts[1..], if a.written && a.edit.SetPassword? then Some(a.edit.hash) else hash)
  }

  /** The second-factor secret that the second-factor edits of a run leave behind. */
  function LastTotp(attempts: seq<Attempt>, secret: Option<string>): Option<string> {
    if attempts == [] then secret
    else
      var a := attempts[0];
      LastTotp(attempts[1..],
               if a.written && a.edit.SetTotp? then (if a.edit.secret == "" then None else Some(a.edit.secret)) else secret)
  }

  lemma AccountSurvivesOne(regex: Regex, a: Attempt, doc: Doc)
    requires !a.edit.RemoveConfig?
    ensures var after := AfterAttempt(regex, a, Document(doc));
            && after.Document? && after.doc.rest == doc.rest && AuthOf(after.doc).rest == AuthOf(doc).rest
            && AuthOf(after.doc).passwordHash == LastPassword([a], AuthOf(doc).passwordHash)
            && AuthOf(after.doc).totpSecret == LastTotp([a], AuthOf(doc).totpSecret)
  {
    var o := Perform(a.net, regex, a.edit, Document(doc), Document(doc));
    if o.Save? {
      EditFootprint(a.net, regex, a.edit, doc);
    }
    if a.edit.CreateConfig? || a.edit.SetPassword? || a.edit.SetTotp? {
      hide ServiceEdit, LoadedServices, ForgetDefault, Rewrite;
    } else {
      ServiceEditKeepsFile(a.net, regex, a.edit, doc);
      hide Perform;
    }
  }

  lemma ServiceEditKeepsFile(net: Net, regex: Regex, e: Edit, doc: Doc)
    requires EditsServices(e)
    ensures !Perform(net, regex, e, Document(doc), Document(doc)).Delete?
  {
    hide ServiceEdit, LoadedServices, SerializedAll;
  }

  /**
    * An account survives every run of edits without a removal, failures included: its file
    * stays a document, and its password hash and second factor are those the last successful
    * edit of each left behind.
    */
  lemma {:induction false} AccountSurvives(regex: Regex, attempts: seq<Attempt>, doc: Doc)
    requires forall a :: a in attempts ==> !a.edit.RemoveConfig?
    ensures var after := AfterAll(regex, attempts, Document(doc));
            && after.Document? && after.doc.rest == doc.rest && AuthOf(after.doc).rest == AuthOf(doc).rest
            && AuthOf(after.doc).passwordHash == LastPassword(attempts, AuthOf(doc).passwordHash)
            && AuthOf(after.doc).totpSecret == LastTotp(attempts, AuthOf(doc).totpSecret)
    decreases |attempts|
  {
    hide AfterAttempt, AuthOf;
    if attempts != [] {
      AccountSurvivesOne(regex, attempts[0], doc);
      var next := AfterAttempt(regex, attempts[0], Document(doc)).doc;
      AccountSurvives(regex, attempts[1..], next);
      LastOfOne(attempts[0], AuthOf(doc).passwordHash, AuthOf(doc).totpSecret);
    }
  }

  lemma LastOfOne(a: Attempt, hash: Option<string>, secret: Option<string>)
    ensures LastPassword([a], hash) == if a.written && a.edit.SetPassword? then Some(a.edit.hash) else hash
    ensures LastTotp([a], secret) ==
              if a.written && a.edit.SetTotp? then (if a.edit.secret == "" then None else Some(a.edit.secret)) else secret
  {
  }

  function EditedAuth(a: Edit, auth: RawAuth): RawAuth
    requires a.SetPassword? || a.SetTotp?
  {
    if a.SetPassword? then auth.(passwordHash := Some(a.hash))
    else auth.(totpSecret := if a.secret == "" then None else Some(a.secret))
  }

  /** The outcome with the account part of the saved document replaced. */
  function WithAuth(o: Outcome, auth: Option<RawAuth>): Outcome {
    if o.Save? then Save(o.doc.(auth := auth)) else o
  }

  lemma AccountEditOutcome(net: Net, regex: Regex, a: Edit, doc: Doc)
    requires a.SetPassword? || a.SetTotp?
    ensures Perform(net, regex, a, Document(doc), Document(doc)) == Save(doc.(auth := Some(EditedAuth(a, AuthOf(doc)))))
  {
    hide LoadedServices, ServiceEdit;
  }

  lemma ServiceEditIgnoresAuth(net: Net, regex: Regex, s: Edit, doc: Doc, auth: Option<RawAuth>)
    requires EditsServices(s)
    ensures var changed := Document(doc.(auth := auth));
            Perform(net, regex, s, changed, changed) ==
            WithAuth(Perform(net, regex, s, Document(doc), Document(doc)), auth)
  {
    hide AcceptedAll, ServiceEdit, SerializedAll, HasId;
  }

  /** An account edit and a service edit can swap places, whether or not the service edit succeeds. */
  lemma AccountAndServiceEditsCommute(net: Net, regex: Regex, a: Edit, s: Edit, doc: Doc)
    requires (a.SetPassword? || a.SetTotp?) && EditsServices(s)
    ensures var x, y := Attempt(net, a, true), Attempt(net, s, true);
            AfterAttempt(regex, y, AfterAttempt(regex, x, Document(doc))) ==
            AfterAttempt(regex, x, AfterAttempt(regex, y, Document(doc)))
  {
    hide Perform, EditedAuth, ServiceEdit, LoadedServices, SerializedAll, HasId;
    var o := Perform(net, regex, s, Document(doc), Document(doc));
    AccountEditOutcome(net, regex, a, doc);
    ServiceEditIgnoresAuth(net, regex, s, doc, Some(EditedAuth(a, AuthOf(doc))));
    ServiceEditOutcome(net, regex, s, doc);
    if o.Save? {
      AccountEditOutcome(net, regex, a, o.doc);
    }
  }

  // ---------------------------------------------------------------- additions and layouts

  /**
    * An addition keeps every field it was given but the five it has to settle; a free ID is
    * kept, and a given path and given hostnames are stored in normal form.
    */
  lemma AdditionKeepsTheRest(net: Net, services: seq<Service>, svc: Service)
    requires Added(net, services, svc).Ok?
    ensures var s := Added(net, services, svc).value;
            && s.(id := svc.id, host := svc.host, path := svc.path, order := svc.order, hostnames := svc.hostnames) == svc
            && (svc.host != "" ==> s.host == svc.host)
            && (s.id == BaseId(svc.id) <==> BaseId(svc.id) !in Ids(services))
            && (svc.path != "" ==> s.path == NormalizePath(svc.path))
            && s.hostnames == Kept(svc.hostnames) && Dropped(svc.hostnames) == []
  {
    UniqueIsNew(BaseId(svc.id), Ids(services));
    hide Unique, Kept, Dropped, Collides, ValidatePath, NormalizePath, BaseId, MaxOrder;
  }

  /** The update that carries every field of `t` it can. */
  function UpdateTo(t: Service): Update {
    Update(Some(t.name), Some(t.description), Some(t.host), Some(t.port), Some(t.path), Some(t.backendPath),
           Some(t.webSocket), Some(t.category), Some(t.bwLimit), Some(t.rootAbsolute), Some(t.hostnames))
  }

  const NO_UPDATE := Update(None, None, None, None, None, None, None, None, None, None, None)

  /** An update that gives everything makes the service what it gives; one that gives nothing changes nothing. */
  lemma UpdatesTakeEffect(s: Service, t: Service)
    requires GoodService(t) && t.name != ""
    ensures Merged(s, UpdateTo(t)) == t.(id := s.id, order := s.order, bootstrap := s.bootstrap)
    ensures Merged(s, NO_UPDATE) == s
  {
    NormalizeFixes(t.path);
    KeptFixes(t.hostnames);
    hide NormalizePath, Kept, IsServicePath, NormalList;
  }

  /** An update touches no other service, and the same update again changes nothing more. */
  lemma UpdatesAreLocalAndIdempotent(net: Net, services: seq<Service>, id: string, u: Update)
    requires Updated(net, services, id, u).Ok?
    ensures var after, i := Updated(net, services, id, u).value, IndexOf(services, id);
            && |after| == |services| && i < |services| && after[i].id == id
            && (forall j :: 0 <= j < |services| && j != i ==> after[j] == services[j])
            && Merged(after[i], u) == after[i]
  {
    hide NormalizePath, Kept, Refused;
  }

  /** A removal deletes the one service of that ID and nothing else. */
  lemma RemovalDeletesOne(services: seq<Service>, id: string)
    requires HasId(services, id) && forall i, j :: 0 <= i < j < |services| ==> services[i].id != services[j].id
    ensures var i := IndexOf(services, id);
            i < |services| && Without(services, id) == services[..i] + services[i + 1..]
  {
    var i := IndexOf(services, id);
    hide IndexOf;
    WithoutAround(services, id, i);
  }

  lemma WithoutSnoc(services: seq<Service>, s: Service, id: string)
    ensures Without(services + [s], id) == Without(services, id) + if s.id != id then [s] else []
  {
    assert (services + [s])[..|services|] == services;
  }

  lemma {:induction false} WithoutNone(services: seq<Service>, id: string)
    requires forall s :: s in services ==> s.id != id
    ensures Without(services, id) == services
  {
    if services != [] {
      hide Without;
      var init, last := services[..|services| - 1], services[|services| - 1];
      assert services == init + [last];
      WithoutNone(init, id);
      WithoutSnoc(init, last, id);
    }
  }

  lemma {:induction false} WithoutAround(services: seq<Service>, id: string, i: nat)
    requires i < |services| && services[i].id == id
    requires forall j :: 0 <= j < |services| && j != i ==> services[j].id != id
    ensures Without(services, id) == services[..i] + services[i + 1..]
  {
    hide Without;
    var n := |services| - 1;
    assert services == services[..n] + [services[n]];
    WithoutSnoc(services[..n], services[n], id);
    if i == n {
      WithoutNone(services[..n], id);
      assert services[i + 1..] == [];
    } else {
      WithoutAround(services[..n], id, i);
      assert services[..n][..i] == services[..i] && services[..n][i + 1..] + [services[n]] == services[i + 1..];
    }
  }

  /** A name from the web page always gives an acceptable ID and path. */
  lemma SlugAdditionSucceeds(net: Net, services: seq<Service>, svc: Service)
    requires IsSlug(svc.id) && svc.path == "" && svc.hostnames == [] && BackendOk(net, svc)
    ensures Added(net, services, svc).Ok?
  {
    var id := Unique(BaseId(svc.id), Ids(services));
    TrimSpaceFixesSlug(svc.id);
    UniqueSlug(svc.id, Ids(services));
    SlugPath(id);
    hide IsSlug, Unique, NormalizePath, ValidatePath, TrimSpace;
    UniquePathIsSlug(id, Paths(services));
  }

  lemma TrimSpaceFixesSlug(s: string)
    requires IsSlug(s)
    ensures TrimSpace(s) == s
  {
    assert s[0] in s && s[|s| - 1] in s;
    TrimSpaceFixes(s);
  }

  /** Numbering the path of a slug is the path of the numbered slug. */
  lemma UniquePathIsSlug(slug: string, taken: set<string>)
    requires IsSlug(slug)
    ensures ValidatePath(Unique("/" + slug, taken))
  {
    var n := FirstFree("/" + slug, taken, 1);
    assert Numbered("/" + slug, n) == "/" + Numbered(slug, n);
    assert IsSlug(Numbered(slug, n));
    SlugPath(Numbered(slug, n));
  }

  lemma {:induction false} MaxOrderIsMax(services: seq<Service>)
    ensures MaxOrder(services) >= -1 && forall s :: s in services ==> s.order <= MaxOrder(services)
    ensures MaxOrder(services) > -1 ==> exists s :: s in services && s.order == MaxOrder(services)
  {
    if services != [] {
      var init, last := services[..|services| - 1], services[|services| - 1];
      MaxOrderIsMax(init);
      assert forall s :: s in services <==> s in init || s == last;
    }
  }

  /**
    * A new service is ordered after every other one, unless some service already has the
    * largest 64-bit order, in which case the next one wraps around to the smallest.
    */
  lemma AddedIsLast(net: Net, services: seq<Service>, svc: Service)
    requires Added(net, services, svc).Ok? && services != []
    requires forall s :: s in services ==> s.order <= INT64_MAX
    ensures var order := Added(net, services, svc).value.order;
            && ((forall s :: s in services ==> s.order < order) <==>
                  forall s :: s in services ==> s.order < INT64_MAX)
            && INT64_MIN <= order <= INT64_MAX
  {
    MaxOrderIsMax(services);
    hide CheckedHostnames, BackendOk, NewPath, Unique, MaxOrder;
    assert services[0] in services;
  }

  /** A layout is accepted exactly if it names every service once: nothing lost, nothing added. */
  lemma LayoutIsPermutation(services: seq<Service>, items: seq<Item>)
    requires forall i, j :: 0 <= i < j < |services| ==> services[i].id != services[j].id
    ensures Arranged(services, items).Ok? <==>
              && ItemIds(items) == Ids(services)
              && forall i, j :: 0 <= i < j < |items| ==> items[i].id != items[j].id
  {
    if Arranged(services, items).Ok? {
      CompleteMeansAll(services, items);
      forall i, j | 0 <= i < j < |items|
        ensures items[i].id != items[j].id
      {
        if items[i].id == items[j].id {
          assert items[..j][i] in items[..j];
          RepeatedIsIncomplete(items, j);
        }
      }
    } else if ItemIds(items) == Ids(services) && forall i, j :: 0 <= i < j < |items| ==> items[i].id != items[j].id {
      ManyItemIds(items);
      ManyIds(services);
    }
  }
}
