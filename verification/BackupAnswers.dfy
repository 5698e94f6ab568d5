/** What every backup call answers and writes, with GitOps enabled or not, from the stores it starts in and what it meets. */
module BackupAnswers {
  import opened Prelude
  import opened GitOpsClient
  import opened GitOpsRemote
  import opened GitOpsAnswers
  import opened Backup
  import opened BackupRuns

  /** The Capp is live, and its Git backup is on. */
  predicate Backed(cfg: Config, w: Stores, key: Key) {
    cfg.enabled && key in w.capps && LABEL in w.capps[key].labels && w.capps[key].labels[LABEL] == "true"
  }

  /** The Capp under its key is this one, of some version, and all others are as they were. */
  predicate CappIs(w: Stores, w': Stores, key: Key, labels: map<string, string>, annotations: map<string, string>, spec: Spec) {
    && key in w'.capps && w'.capps[key].labels == labels && w'.capps[key].annotations == annotations && w'.capps[key].spec == spec
    && w'.capps - {key} == w.capps - {key}
  }

  /** The file is as given, and every other file as it was unless the push took it along. */
  predicate FileBecomes(cfg: Config, w: Stores, w': Stores, key: Key, content: Option<Bytes>, git: Git) {
    var file := FileOf(cfg, key);
    && FileAt(w'.files, file) == content
    && forall p | p in w'.files.Keys + w.files.Keys && p != file && p !in git.carried :: FileAt(w'.files, p) == FileAt(w.files, p)
  }

  /** What a call that got to its Git step does to the files: nothing unless that lands. */
  predicate FilesAfter(cfg: Config, w: Stores, w': Stores, key: Key, content: Option<Bytes>, git: Git) {
    if git.landed then FileBecomes(cfg, w, w', key, content, git) else w'.files == w.files
  }

  lemma WriteShows(cfg: Config, w: Stores, key: Key, content: Option<Spec>, git: Git)
    ensures var w' := GitWrite(cfg, w, key, content, git);
      && w'.capps == w.capps && w'.clock == w.clock
      && FilesAfter(cfg, w, w', key, if content.Some? then Some(cfg.render(key, content.value)) else None, git)
  {
  }

  lemma PutShows(w: Stores, key: Key, capp: Capp)
    ensures var w' := Put(w, key, capp); CappIs(w, w', key, capp.labels, capp.annotations, capp.spec) && w'.files == w.files
  {
  }

  /** The file of a Capp is named by cluster, namespace and Capp, below the prefix. */
  lemma FileIsNamed(cfg: Config, key: Key)
    requires Plain(cfg.cluster)
    ensures FileOf(cfg, key) == Clean([], Segments(cfg.pathPrefix)) + [cfg.cluster, key.namespace, key.name + ".yaml"]
  {
    RelPathShape(cfg.pathPrefix, cfg.cluster, key.namespace, key.name);
  }

  /** A new Capp has no labels, so it is never backed up from the start, and Git is not asked. */
  lemma CreateExactly(cfg: Config, w: Stores, key: Key, valid: bool, f: Faults)
    ensures var (w', r) := Handle(cfg, w, Call.Create(key, valid), f);
      && (r.Done? <==> valid && key !in w.capps && f.stored.Some?)
      && (r.Done? ==> r == Done(false) && CappIs(w, w', key, map[], map[], f.stored.value))
      && (r.Failed? ==> w' == w)
      && w'.files == w.files
  {
  }

  /** The labels a rollback leaves: the template's, with the live backup label or none. */
  predicate RolledBack(labels: map<string, string>, template: map<string, string>, live: map<string, string>) {
    && (LABEL in labels <==> LABEL in live) && (LABEL in live ==> labels[LABEL] == live[LABEL])
    && (forall l | l in labels.Keys + template.Keys && l != LABEL :: l in labels && l in template && labels[l] == template[l])
  }

  /** An update goes through exactly when the Capp is there, the request is valid and every step works up to the cluster write; then its Git step can only warn. */
  lemma UpdateExactly(cfg: Config, w: Stores, key: Key, valid: bool, f: Faults)
    ensures var (w', r) := Handle(cfg, w, Call.Update(key, valid), f);
      var backed := Backed(cfg, w, key);
      && (r.Done? <==> f.read && key in w.capps && valid && (backed ==> f.meta) && f.stored.Some?)
      && (r == Failed(NotFound) <==> f.read && key !in w.capps)
      && (r.Done? ==>
            && r == Done(backed && !f.git.acked)
            && CappIs(w, w', key, w.capps[key].labels, w.capps[key].annotations, f.stored.value)
            && if backed then FilesAfter(cfg, w, w', key, Some(cfg.render(key, f.stored.value)), f.git) else w'.files == w.files)
      && (r.Failed? ==> w' == w)
  {
    ReplaceExactly(cfg, w, key, if key in w.capps then w.capps[key] else Capp(0, map[], map[], ""), f);
  }

  lemma RollbackExactly(cfg: Config, w: Stores, key: Key, template: Option<Template>, f: Faults)
    ensures var (w', r) := Handle(cfg, w, Call.Rollback(key, template), f);
      var backed := Backed(cfg, w, key);
      && (r.Done? <==> template.Some? && f.read && key in w.capps && (backed ==> f.meta) && f.stored.Some?)
      && (r == Failed(NotFound) <==> template.None? || (f.read && key !in w.capps))
      && (r.Done? ==>
            && r == Done(backed && !f.git.acked)
            && key in w'.capps && RolledBack(w'.capps[key].labels, template.value.labels, w.capps[key].labels)
            && CappIs(w, w', key, w'.capps[key].labels, template.value.annotations, f.stored.value)
            && if backed then FilesAfter(cfg, w, w', key, Some(cfg.render(key, f.stored.value)), f.git) else w'.files == w.files)
      && (r.Failed? ==> w' == w)
  {
    if template.Some? && key in w.capps {
      var updated := ApplyTemplate(w.capps[key], template.value);
      TemplateKeepsBackupLabel(w.capps[key], template.value);
      assert RolledBack(updated.labels, template.value.labels, w.capps[key].labels);
      ReplaceExactly(cfg, w, key, updated, f);
    }
  }

  /** The tail that updates and rollbacks share. */
  lemma ReplaceExactly(cfg: Config, w: Stores, key: Key, updated: Capp, f: Faults)
    requires key in w.capps ==> updated.version == w.capps[key].version
    ensures key in w.capps ==>
      var (w1, half) := Start(cfg, w, ReadReplace(cfg, w, key, updated, f), f);
      var (w', r) := Complete(cfg, w1, half, f);
      var backed := Backed(cfg, w, key);
      && (r.Done? <==> (backed ==> f.meta) && f.stored.Some?)
      && (r.Done? ==>
            && r == Done(backed && !f.git.acked)
            && CappIs(w, w', key, updated.labels, updated.annotations, f.stored.value)
            && if backed then FilesAfter(cfg, w, w', key, Some(cfg.render(key, f.stored.value)), f.git) else w'.files == w.files)
      && (r.Failed? ==> w' == w && r != Failed(NotFound))
  {
    if key in w.capps && f.stored.Some? {
      hide GitWrite, FilesAfter, Put;
      var w1 := Put(w, key, updated.(spec := f.stored.value));
      PutShows(w, key, updated.(spec := f.stored.value));
      WriteShows(cfg, w1, key, f.stored, f.git);
      FilesOnly(cfg, w, w1, GitWrite(cfg, w1, key, f.stored, f.git), key, Some(cfg.render(key, f.stored.value)), f.git);
    }
  }

  lemma FilesOnly(cfg: Config, w: Stores, w1: Stores, w': Stores, key: Key, content: Option<Bytes>, git: Git)
    requires w1.files == w.files
    ensures FilesAfter(cfg, w1, w', key, content, git) <==> FilesAfter(cfg, w, w', key, content, git)
  {
  }

  lemma DeleteExactly(cfg: Config, w: Stores, key: Key, f: Faults)
    ensures var (w', r) := Handle(cfg, w, Call.Delete(key), f);
      var backed := Backed(cfg, w, key);
      && (r.Done? <==> f.read && key in w.capps && (backed ==> f.meta) && f.delete)
      && (r == Failed(NotFound) <==> f.read && key !in w.capps)
      && (r.Done? ==>
            && r == Done(backed && !f.git.acked)
            && w'.capps == w.capps - {key}
            && if backed then FilesAfter(cfg, w, w', key, None, f.git) else w'.files == w.files)
      && (r.Failed? ==> w' == w)
  {
    hide GitWrite, FilesAfter;
    var w1 := w.(capps := w.capps - {key});
    WriteShows(cfg, w1, key, None, f.git);
    FilesOnly(cfg, w, w1, GitWrite(cfg, w1, key, None, f.git), key, None, f.git);
  }

  /** A sync or unsync writes Git, then the label. It is refused outright without GitOps, and succeeds exactly when every step works. */
  lemma SyncExactly(cfg: Config, w: Stores, key: Key, enable: bool, f: Faults)
    ensures var (w', r) := Handle(cfg, w, SetGitSync(key, enable), f);
      var reached := cfg.enabled && f.read && key in w.capps && f.meta;
      && (r.Done? <==> reached && f.git.acked && f.patch)
      && (r == Failed(NotSupported) <==> !cfg.enabled)
      && (r == Failed(NotFound) <==> cfg.enabled && f.read && key !in w.capps)
      && (r.Done? ==>
            && r == Done(false) && key in w'.capps && HasBackupLabel(w'.capps[key].labels) == enable
            && (!enable ==> LABEL !in w'.capps[key].labels)
            && w'.capps[key].labels - {LABEL} == w.capps[key].labels - {LABEL}
            && CappIs(w, w', key, w'.capps[key].labels, w.capps[key].annotations, w.capps[key].spec))
      && (r.Failed? ==> w'.capps == w.capps)
      && if reached then FilesAfter(cfg, w, w', key, if enable then Some(cfg.render(key, w.capps[key].spec)) else None, f.git)
         else w' == w
  {
    if key in w.capps {
      hide GitWrite, FilesAfter, PatchLabel;
      var content := if enable then Some(w.capps[key].spec) else None;
      var w1 := GitWrite(cfg, w, key, content, f.git);
      WriteShows(cfg, w, key, content, f.git);
      PatchShows(w1, key, enable);
      FilesBoth(cfg, w, w1, PatchLabel(w1, key, enable, w.capps[key].labels), key, if enable then Some(cfg.render(key, w.capps[key].spec)) else None, f.git);
    }
  }

  lemma FilesBoth(cfg: Config, w: Stores, w1: Stores, w': Stores, key: Key, content: Option<Bytes>, git: Git)
    requires w1.files == w'.files && FilesAfter(cfg, w, w1, key, content, git)
    ensures FilesAfter(cfg, w, w', key, content, git)
  {
  }

  lemma PatchShows(w: Stores, key: Key, enable: bool)
    requires key in w.capps
    ensures var w' := PatchLabel(w, key, enable, w.capps[key].labels);
      && w'.files == w.files && key in w'.capps && HasBackupLabel(w'.capps[key].labels) == enable
      && (!enable ==> LABEL !in w'.capps[key].labels)
      && w'.capps[key].labels - {LABEL} == w.capps[key].labels - {LABEL}
      && CappIs(w, w', key, w'.capps[key].labels, w.capps[key].annotations, w.capps[key].spec)
  {
  }

  /**
   Without GitOps no call touches a file or warns, a sync or unsync is refused, and every other call answers as for a Capp
   without the backup label, whatever labels it carries.
   */
  lemma DisabledTouchesNoGit(cfg: Config, w: Stores, call: Call, f: Faults)
    requires !cfg.enabled
    ensures var (w', r) := Handle(cfg, w, call, f);
      && w'.files == w.files && r != Done(true)
      && (call.SetGitSync? ==> w' == w && r == Failed(NotSupported))
      && (call.Create? ==> (r == Done(false) <==> call.valid && call.key !in w.capps && f.stored.Some?))
      && (call.Update? ==> (r == Done(false) <==> f.read && call.key in w.capps && call.valid && f.stored.Some?))
      && (call.Rollback? ==> (r == Done(false) <==> call.template.Some? && f.read && call.key in w.capps && f.stored.Some?))
      && (call.Delete? ==> (r == Done(false) <==> f.read && call.key in w.capps && f.delete))
  {
    hide Handle;
    match call
    case Create(key, valid) => CreateExactly(cfg, w, key, valid, f);
    case Update(key, valid) => UpdateExactly(cfg, w, key, valid, f);
    case Delete(key) => DeleteExactly(cfg, w, key, f);
    case SetGitSync(key, enable) => SyncExactly(cfg, w, key, enable, f);
    case Rollback(key, template) => RollbackExactly(cfg, w, key, template, f);
  }
}
