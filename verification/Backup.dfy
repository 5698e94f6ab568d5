/**
 The Git backup of Capps: a label on the live Capp and a values file in Git, kept in step by
 create, update, delete, sync, unsync and rollback. Every external step may fail, and each call
 is a read, a first step and at most one second step that other calls may come between.
 */
module Backup {
  import opened Prelude
  import opened GitOpsClient
  import opened GitOpsRemote

  const LABEL := "rcs.dana.io/backup-to-git"

  datatype Name = Name(namespace: string, name: string)

  /** Kubernetes names are single path segments. */
  type Key = k: Name | Plain(k.namespace) && Plain(k.name) witness Name("n", "c")

  type Spec = string

  /** version is the resource version: no two writes that change something give the same one. */
  datatype Capp = Capp(version: nat, labels: map<string, string>, annotations: map<string, string>, spec: Spec)

  datatype Template = Template(labels: map<string, string>, annotations: map<string, string>, spec: Spec)

  /** render is GenerateValues: the values file is a function of name, namespace and spec alone. */
  datatype Config = Config(enabled: bool, pathPrefix: string, cluster: string, render: (Key, Spec) -> Bytes)

  /** The two stores, and the next resource version. */
  datatype Stores = Stores(capps: map<Key, Capp>, files: Tree, clock: nat)

  datatype Error =
    | NotSupported | BadRequest | NotFound | AlreadyExists | ReadFailed | MetaMissing | WriteFailed | GitopsFailed | PatchFailed

  datatype Response = Done(warned: bool) | Failed(error: Error)

  /**
   How the external steps of one call go. stored is the spec the API server persists, None when the write fails.
   git is what the client's call does to the remote tree and what it answers.
   */
  datatype Faults = Faults(read: bool, meta: bool, stored: Option<Spec>, delete: bool, git: Git, patch: bool)

  predicate HasBackupLabel(labels: map<string, string>) {
    LABEL in labels && labels[LABEL] == "true"
  }

  function FileOf(cfg: Config, key: Key): RelPath {
    BuildRelPath(cfg.pathPrefix, cfg.cluster, key.namespace, key.name)
  }

  // ---- The single external steps -------------------------------------------

  /** The values file for a spec, or its removal. */
  function FileOp(cfg: Config, key: Key, content: Option<Spec>): Op {
    if content.Some? then SyncOp(cfg.pathPrefix, cfg.cluster, key.namespace, key.name, cfg.render(key, content.value))
    else DeleteOp(cfg.pathPrefix, cfg.cluster, key.namespace, key.name)
  }

  function GitWrite(cfg: Config, w: Stores, key: Key, content: Option<Spec>, git: Git): Stores {
    w.(files := GitEffect(git, FileOp(cfg, key, content), w.files))
  }

  /** A write that leaves everything as it is. */
  predicate SameAsLive(capps: map<Key, Capp>, key: Key, capp: Capp) {
    key in capps && capp.(version := capps[key].version) == capps[key]
  }

  /** A write that changes nothing keeps the resource version. */
  function Put(w: Stores, key: Key, capp: Capp): Stores {
    if SameAsLive(w.capps, key, capp) then w
    else w.(capps := w.capps[key := capp.(version := w.clock)], clock := w.clock + 1)
  }

  /**
   The merge patch is the difference to the labels that were read, carries no resource version and
   touches this one label; it is empty when the label was read as wanted.
   */
  function PatchLabel(w: Stores, key: Key, enable: bool, read: map<string, string>): Stores
    requires key in w.capps
  {
    var capp := w.capps[key];
    if enable then if HasBackupLabel(read) then w else Put(w, key, capp.(labels := capp.labels[LABEL := "true"]))
    else if LABEL !in read then w else Put(w, key, capp.(labels := capp.labels - {LABEL}))
  }

  /** The live Capp with the template's spec, labels and annotations, and the backup label as it is live. */
  function ApplyTemplate(live: Capp, template: Template): Capp {
    var labels := template.labels - {LABEL};
    Capp(live.version, if LABEL in live.labels then labels[LABEL := live.labels[LABEL]] else labels, template.annotations, template.spec)
  }

  // ---- The calls, step by step ---------------------------------------------

  datatype Call =
    | Create(key: Key, valid: bool)
    | Update(key: Key, valid: bool)
    | Delete(key: Key)
    | SetGitSync(key: Key, enable: bool)
    | Rollback(key: Key, template: Option<Template>)

  /** What a call is about to do after it has read the Capp. */
  datatype Plan =
    | Creating(key: Key)
    | Replacing(key: Key, updated: Capp, backup: bool)
    | Deleting(key: Key, backup: bool)
    | Syncing(key: Key, enable: bool, read: Capp)

  /** What is left to do after its first write. */
  datatype Rest =
    | Backing(key: Key, content: Option<Spec>)
    | Labelling(key: Key, enable: bool, read: map<string, string>)

  datatype Begun = Refused(error: Error) | Planned(plan: Plan)
  datatype Half = Ended(response: Response) | Left(rest: Rest)

  function Read(cfg: Config, w: Stores, call: Call, f: Faults): Begun {
    var key := call.key;
    match call
    case Create(_, valid) => if valid then Planned(Creating(key)) else Refused(BadRequest)
    case Update(_, valid) =>
      if !f.read then Refused(ReadFailed)
      else if key !in w.capps then Refused(NotFound)
      else if !valid then Refused(BadRequest)
      else ReadReplace(cfg, w, key, w.capps[key], f)
    case Rollback(_, template) =>
      if template.None? then Refused(NotFound)
      else if !f.read then Refused(ReadFailed)
      else if key !in w.capps then Refused(NotFound)
      else ReadReplace(cfg, w, key, ApplyTemplate(w.capps[key], template.value), f)
    case Delete(_) =>
      if !f.read then Refused(ReadFailed)
      else if key !in w.capps then Refused(NotFound)
      else
        var backup := cfg.enabled && HasBackupLabel(w.capps[key].labels);
        if backup && !f.meta then Refused(MetaMissing) else Planned(Deleting(key, backup))
    case SetGitSync(_, enable) =>
      if !cfg.enabled then Refused(NotSupported)
      else if !f.read then Refused(ReadFailed)
      else if key !in w.capps then Refused(NotFound)
      else if !f.meta then Refused(MetaMissing)
      else Planned(Syncing(key, enable, w.capps[key]))
  }

  function ReadReplace(cfg: Config, w: Stores, key: Key, updated: Capp, f: Faults): Begun
    requires key in w.capps
  {
    var backup := cfg.enabled && HasBackupLabel(w.capps[key].labels);
    if backup && !f.meta then Refused(MetaMissing) else Planned(Replacing(key, updated, backup))
  }

  /** The cluster write; for sync and unsync the Git write. A replacement is refused when the Capp changed since it was read. */
  function FirstStep(cfg: Config, w: Stores, plan: Plan, f: Faults): (Stores, Half) {
    match plan
    case Creating(key) =>
      if f.stored.None? then (w, Ended(Failed(WriteFailed)))
      else if key in w.capps then (w, Ended(Failed(AlreadyExists)))
      else (Put(w, key, Capp(0, map[], map[], f.stored.value)), Ended(Done(false)))
    case Replacing(key, updated, backup) =>
      if f.stored.None? || key !in w.capps || w.capps[key].version != updated.version then (w, Ended(Failed(WriteFailed)))
      else (Put(w, key, updated.(spec := f.stored.value)), if backup then Left(Backing(key, f.stored)) else Ended(Done(false)))
    case Deleting(key, backup) =>
      if !f.delete || key !in w.capps then (w, Ended(Failed(WriteFailed)))
      else (w.(capps := w.capps - {key}), if backup then Left(Backing(key, None)) else Ended(Done(false)))
    case Syncing(key, enable, read) =>
      (GitWrite(cfg, w, key, if enable then Some(read.spec) else None, f.git),
       if f.git.acked then Left(Labelling(key, enable, read.labels)) else Ended(Failed(GitopsFailed)))
  }

  /** The Git write after a cluster write; for sync and unsync the label patch. */
  function SecondStep(cfg: Config, w: Stores, rest: Rest, f: Faults): (Stores, Response) {
    match rest
    case Backing(key, content) => (GitWrite(cfg, w, key, content, f.git), Done(!f.git.acked))
    case Labelling(key, enable, read) =>
      if !f.patch || key !in w.capps then (w, Failed(PatchFailed)) else (PatchLabel(w, key, enable, read), Done(false))
  }

  /** The first step of a call that may have been refused already. */
  function Start(cfg: Config, w: Stores, begun: Begun, f: Faults): (Stores, Half) {
    if begun.Refused? then (w, Ended(Failed(begun.error))) else FirstStep(cfg, w, begun.plan, f)
  }

  /** The second step of a call that may have ended already. */
  function Complete(cfg: Config, w: Stores, half: Half, f: Faults): (Stores, Response) {
    if half.Ended? then (w, half.response) else SecondStep(cfg, w, half.rest, f)
  }

  /** One call with nothing in between. */
  function Handle(cfg: Config, w: Stores, call: Call, f: Faults): (Stores, Response) {
    var (w1, half) := Start(cfg, w, Read(cfg, w, call, f), f);
    Complete(cfg, w1, half, f)
  }

  /** The handlers of one cluster, over the two stores. */
  class Handler {
    const cfg: Config
    var capps: map<Key, Capp>
    var files: Tree
    var clock: nat

    function View(): Stores
      reads this
    {
      Stores(capps, files, clock)
    }

    constructor (cfg: Config)
      ensures this.cfg == cfg && View() == Stores(map[], map[], 0)
    {
      this.cfg, capps, files, clock := cfg, map[], map[], 0;
    }

    /** The GitOps client's operations, seen as one write to the remote tree; GitOpsRemote.CallIsGit says what git can be. */
    method SyncCappValues(key: Key, content: Option<Spec>, git: Git) returns (ok: bool)
      modifies this`files
      ensures View() == GitWrite(cfg, old(View()), key, content, git)
      ensures ok <==> git.acked
    {
      if git.landed {
        files := Carry(files, git.carried);
        if content.Some? {
          files := files[FileOf(cfg, key) := cfg.render(key, content.value)];
        } else {
          files := files - {FileOf(cfg, key)};
        }
      }
      ok := git.acked;
    }

    method Store(key: Key, capp: Capp)
      modifies this`capps, this`clock
      ensures View() == Put(old(View()), key, capp)
    {
      if !SameAsLive(capps, key, capp) {
        capps := capps[key := capp.(version := clock)];
        clock := clock + 1;
      }
    }

    /** A new Capp never carries the backup label. */
    method Create(key: Key, valid: bool, f: Faults) returns (r: Response)
      modifies this
      ensures (View(), r) == Handle(cfg, old(View()), Call.Create(key, valid), f)
      ensures r.Failed? ==> View() == old(View())
      ensures r.Done? ==> key !in old(capps) && key in capps && !HasBackupLabel(capps[key].labels) && files == old(files)
    {
      if !valid {
        return Failed(BadRequest);
      }
      if f.stored.None? {
        return Failed(WriteFailed);
      }
      if key in capps {
        return Failed(AlreadyExists);
      }
      Store(key, Capp(0, map[], map[], f.stored.value));
      return Done(false);
    }

    method Update(key: Key, valid: bool, f: Faults) returns (r: Response)
      modifies this
      ensures (View(), r) == Handle(cfg, old(View()), Call.Update(key, valid), f)
      ensures r.Failed? ==> View() == old(View())
      ensures r.Done? ==>
        && key in old(capps) && capps.Keys == old(capps).Keys
        && capps[key].spec == f.stored.value && capps[key].labels == old(capps)[key].labels
      ensures r == Done(true) ==> HasBackupLabel(old(capps)[key].labels) && !f.git.acked
    {
      if !f.read {
        return Failed(ReadFailed);
      }
      if key !in capps {
        return Failed(NotFound);
      }
      var existing := capps[key];
      if !valid {
        return Failed(BadRequest);
      }
      r := Replace(key, existing, existing, f);
    }

    /** The common tail of update and rollback. */
    method Replace(key: Key, existing: Capp, updated: Capp, f: Faults) returns (r: Response)
      requires key in capps && existing == capps[key] && updated.version == existing.version
      modifies this
      ensures var (w1, half) := Start(cfg, old(View()), ReadReplace(cfg, old(View()), key, updated, f), f);
        (View(), r) == Complete(cfg, w1, half, f)
      ensures r.Failed? ==> View() == old(View())
      ensures r.Done? ==>
        && f.stored.Some? && capps.Keys == old(capps).Keys
        && capps[key] == updated.(spec := f.stored.value, version := capps[key].version)
    {
      var backup := cfg.enabled && HasBackupLabel(existing.labels);
      if backup && !f.meta {
        return Failed(MetaMissing);
      }
      if f.stored.None? {
        return Failed(WriteFailed);
      }
      Store(key, updated.(spec := f.stored.value));
      r := Done(false);
      if backup {
        var ok := SyncCappValues(key, f.stored, f.git);
        r := Done(!ok);
      }
    }

    method Rollback(key: Key, template: Option<Template>, f: Faults) returns (r: Response)
      modifies this
      ensures (View(), r) == Handle(cfg, old(View()), Call.Rollback(key, template), f)
      ensures r.Failed? ==> View() == old(View())
      ensures r.Done? ==>
        && key in old(capps) && capps.Keys == old(capps).Keys
        && (HasBackupLabel(capps[key].labels) <==> HasBackupLabel(old(capps)[key].labels))
        && capps[key].annotations == template.value.annotations
    {
      hide FirstStep, SecondStep;
      if template.None? {
        return Failed(NotFound);
      }
      if !f.read {
        return Failed(ReadFailed);
      }
      if key !in capps {
        return Failed(NotFound);
      }
      var existing := capps[key];
      var labels := template.value.labels - {LABEL};
      if LABEL in existing.labels {
        labels := labels[LABEL := existing.labels[LABEL]];
      }
      var updated := Capp(existing.version, labels, template.value.annotations, template.value.spec);
      r := Replace(key, existing, updated, f);
    }

    method Delete(key: Key, f: Faults) returns (r: Response)
      modifies this
      ensures (View(), r) == Handle(cfg, old(View()), Call.Delete(key), f)
      ensures r.Failed? ==> View() == old(View())
      ensures r.Done? ==> key in old(capps) && key !in capps
    {
      if !f.read {
        return Failed(ReadFailed);
      }
      if key !in capps {
        return Failed(NotFound);
      }
      var backup := cfg.enabled && HasBackupLabel(capps[key].labels);
      if backup && !f.meta {
        return Failed(MetaMissing);
      }
      if !f.delete {
        return Failed(WriteFailed);
      }
      capps := capps - {key};
      r := Done(false);
      if backup {
        var ok := SyncCappValues(key, None, f.git);
        r := Done(!ok);
      }
    }

    /** Git first, then the label. */
    method SetGitSync(key: Key, enable: bool, f: Faults) returns (r: Response)
      modifies this
      ensures (View(), r) == Handle(cfg, old(View()), Call.SetGitSync(key, enable), f)
      ensures r.Failed? ==> capps == old(capps)
      ensures r.Failed? && !f.git.landed ==> View() == old(View())
      ensures r.Done? ==> key in capps && (HasBackupLabel(capps[key].labels) <==> enable)
    {
      if !cfg.enabled {
        return Failed(NotSupported);
      }
      if !f.read {
        return Failed(ReadFailed);
      }
      if key !in capps {
        return Failed(NotFound);
      }
      if !f.meta {
        return Failed(MetaMissing);
      }
      var capp := capps[key];
      var ok := SyncCappValues(key, if enable then Some(capp.spec) else None, f.git);
      if !ok {
        return Failed(GitopsFailed);
      }
      if !f.patch {
        return Failed(PatchFailed);
      }
      if enable && !HasBackupLabel(capp.labels) {
        Store(key, capp.(labels := capp.labels[LABEL := "true"]));
      } else if !enable && LABEL in capp.labels {
        Store(key, capp.(labels := capp.labels - {LABEL}));
      }
      r := Done(false);
    }
  }
}
