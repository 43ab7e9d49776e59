/**
  * The configuration file as the code changes it: one method per edit, each reading the file,
  * computing the new document with the loops of the code, and replacing the file.
  */
module ConfigFiles {
  import opened Basics
  import opened UserConfig
  import opened ConfigEdits
  import opened ConfigInvariant

  class ConfigFile {
    var file: File

    constructor ()
      ensures file == Missing
    {
      file := Missing;
    }

    /** Replaces the file at once; `ok` says whether the write succeeds. */
    method Replace(doc: Doc, ok: bool) returns (done: bool)
      modifies this
      ensures done == ok && file == if ok then Document(doc) else old(file)
    {
      if ok {
        file := Document(doc);
      }
      done := ok;
    }

    method Create(ghost net: Net, ghost regex: Regex, hash: string, ok: bool) returns (done: bool)
      modifies this
      ensures file == AfterAttempt(regex, Attempt(net, CreateConfig(hash), ok), old(file))
      ensures done <==> ok && IsValidPasswordHash(hash) && old(file).Missing?
    {
      if !IsValidPasswordHash(hash) || !file.Missing? {
        return false;
      }
      done := Replace(NewDoc(hash), ok);
    }

    method Remove(ghost net: Net, ghost regex: Regex, ok: bool) returns (done: bool)
      modifies this
      ensures file == AfterAttempt(regex, Attempt(net, RemoveConfig, ok), old(file))
      ensures done <==> ok && !old(file).Missing?
    {
      done := ok && !file.Missing?;
      if done {
        file := Missing;
      }
    }

    method UpdatePasswordHash(ghost net: Net, ghost regex: Regex, hash: string, ok: bool) returns (done: bool)
      modifies this
      ensures file == AfterAttempt(regex, Attempt(net, SetPassword(hash), ok), old(file))
      ensures done <==> ok && old(file).Document?
    {
      if !file.Document? {
        return false;
      }
      var auth := Or(file.doc.auth, RawAuth(None, None, map[]));
      auth := auth.(passwordHash := Some(hash));
      done := Replace(file.doc.(auth := Some(auth)), ok);
    }

    method UpdateTotpSecret(ghost net: Net, ghost regex: Regex, secret: string, ok: bool) returns (done: bool)
      modifies this
      ensures file == AfterAttempt(regex, Attempt(net, SetTotp(secret), ok), old(file))
      ensures done <==> ok && old(file).Document?
    {
      if !file.Document? {
        return false;
      }
      var auth := Or(file.doc.auth, RawAuth(None, None, map[]));
      if secret == "" {
        auth := auth.(totpSecret := None);
      } else {
        auth := auth.(totpSecret := Some(secret));
      }
      done := Replace(file.doc.(auth := Some(auth)), ok);
    }

    /** Writes edited services over those of the document. */
    method SaveServices(services: seq<Service>, ok: bool) returns (done: bool)
      requires file.Document?
      modifies this
      ensures done == ok
      ensures file == if ok then Document(old(file).doc.(services := Some(SerializedAll(services)))) else old(file)
    {
      hide SerializedAll;
      var raws := SerializeServices(services);
      done := Replace(file.doc.(services := Some(raws)), ok);
    }

    method AddService(net: Net, regex: Regex, svc: Service, ok: bool) returns (added: Result<Service>)
      modifies this
      ensures file == AfterAttempt(regex, Attempt(net, Edit.AddService(svc), ok), old(file))
      ensures added == if ok && old(file).Document? then Added(net, LoadedServices(regex, old(file).doc), svc) else Err
    {
      hide LoadedServices, Added, SerializedAll, HasId;
      var cfg := LoadUserConfig(regex, file);
      if cfg.Err? {
        return Err;
      }
      added := AddToServices(net, cfg.value.services, svc);
      if added.Err? {
        return;
      }
      var done := SaveServices(cfg.value.services + [added.value], ok);
      if !done {
        added := Err;
      }
    }

    method UpdateService(net: Net, regex: Regex, id: string, update: Update, ok: bool) returns (done: bool)
      modifies this
      ensures file == AfterAttempt(regex, Attempt(net, Edit.UpdateService(id, update), ok), old(file))
      ensures done <==> ok && old(file).Document? && Updated(net, LoadedServices(regex, old(file).doc), id, update).Ok?
    {
      hide LoadedServices, Updated, SerializedAll, HasId;
      var cfg := LoadUserConfig(regex, file);
      if cfg.Err? {
        return false;
      }
      var updated := UpdateInServices(net, cfg.value.services, id, update);
      if updated.Err? {
        return false;
      }
      done := SaveServices(updated.value, ok);
    }

    method RemoveService(ghost net: Net, regex: Regex, id: string, ok: bool) returns (done: bool)
      modifies this
      ensures file == AfterAttempt(regex, Attempt(net, Edit.RemoveService(id), ok), old(file))
      ensures done <==> ok && old(file).Document? && HasId(LoadedServices(regex, old(file).doc), id)
    {
      hide LoadedServices, Without, SerializedAll, HasId;
      var cfg := LoadUserConfig(regex, file);
      if cfg.Err? {
        return false;
      }
      var kept := RemoveFromServices(cfg.value.services, id);
      if kept.Err? {
        return false;
      }
      var raws := SerializeServices(kept.value);
      var doc := file.doc.(services := Some(raws));
      if Or(doc.defaultService, "") != "" && !HasId(kept.value, doc.defaultService.value) {
        doc := doc.(defaultService := None);
      }
      done := Replace(doc, ok);
    }

    method UpdateServicesLayout(ghost net: Net, regex: Regex, items: seq<Item>, ok: bool) returns (done: bool)
      modifies this
      ensures file == AfterAttempt(regex, Attempt(net, SetLayout(items), ok), old(file))
      ensures done <==> ok && old(file).Document? && CompleteLayout(LoadedServices(regex, old(file).doc), items)
    {
      hide LoadedServices, CompleteLayout, PlacedAll, SerializedAll, HasId;
      var cfg := LoadUserConfig(regex, file);
      if cfg.Err? {
        return false;
      }
      var arranged := ArrangeServices(cfg.value.services, items);
      if arranged.Err? {
        return false;
      }
      done := SaveServices(arranged.value, ok);
    }
  }
}
