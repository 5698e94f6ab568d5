/** What the label and the values file promise about each other: after one call, and over whole runs. */
module BackupRuns {
  import opened Prelude
  import opened GitOpsClient
  import opened GitOpsRemote
  import GitOpsFleet
  import opened Backup

  /** The label is set exactly when the file exists, and the file then is the rendered live spec. */
  predicate Consistent(cfg: Config, w: Stores, key: Key) {
    var file := FileOf(cfg, key);
    if key in w.capps && HasBackupLabel(w.capps[key].labels) then file in w.files && w.files[file] == cfg.render(key, w.capps[key].spec)
    else file !in w.files
  }

  /** The file is what a Git write of this content leaves. */
  predicate FileIs(cfg: Config, w: Stores, key: Key, content: Option<Spec>) {
    Holds(FileOp(cfg, key, content), w.files)
  }

  predicate Ready(cfg: Config) {
    cfg.enabled && Plain(cfg.cluster)
  }

  lemma FilesAreSeparate(cfg: Config, a: Key, b: Key)
    requires Plain(cfg.cluster) && a != b
    ensures FileOf(cfg, a) != FileOf(cfg, b)
  {
    if FileOf(cfg, a) == FileOf(cfg, b) {
      RelPathInjective(cfg.pathPrefix, cfg.cluster, a.namespace, a.name, cfg.cluster, b.namespace, b.name);
    }
  }

  lemma TemplateKeepsBackupLabel(live: Capp, template: Template)
    ensures var updated := ApplyTemplate(live, template);
      && (HasBackupLabel(updated.labels) <==> HasBackupLabel(live.labels))
      && (forall l | l != LABEL :: (l in updated.labels <==> l in template.labels)
                                && (l in template.labels ==> updated.labels[l] == template.labels[l]))
  {
  }

  /** What a Git write does to its own file and to any other. */
  lemma GitWriteFiles(cfg: Config, w: Stores, key: Key, content: Option<Spec>, git: Git, path: RelPath)
    ensures var w' := GitWrite(cfg, w, key, content, git);
      && w'.capps == w.capps
      && (git.landed ==> FileIs(cfg, w', key, content))
      && (!git.landed || (path != FileOf(cfg, key) && path !in git.carried) ==>
            (path in w'.files <==> path in w.files) && (path in w.files ==> w'.files[path] == w.files[path]))
  {
  }

  // ---- One call ------------------------------------------------------------

  /** A call touches no other Capp, and another file only if it was a leftover that the push took along. */
  lemma CallIsOwn(cfg: Config, w: Stores, call: Call, f: Faults, k: Key, path: RelPath)
    requires k != call.key && path != FileOf(cfg, call.key)
    ensures var w' := Handle(cfg, w, call, f).0;
      && (k in w'.capps <==> k in w.capps) && (k in w.capps ==> w'.capps[k] == w.capps[k])
      && (!f.git.landed || path !in f.git.carried ==>
            (path in w'.files <==> path in w.files) && (path in w.files ==> w'.files[path] == w.files[path]))
  {
    var begun := Read(cfg, w, call, f);
    if begun.Planned? {
      FirstIsOwn(cfg, w, begun.plan, f, k, path);
      var (w1, half) := FirstStep(cfg, w, begun.plan, f);
      if half.Left? {
        SecondIsOwn(cfg, w1, half.rest, f, k, path);
      }
    }
  }

  lemma FirstIsOwn(cfg: Config, w: Stores, plan: Plan, f: Faults, k: Key, path: RelPath)
    requires k != plan.key && path != FileOf(cfg, plan.key)
    ensures var (w', half) := FirstStep(cfg, w, plan, f);
      && (half.Left? ==> half.rest.key == plan.key)
      && (k in w'.capps <==> k in w.capps) && (k in w.capps ==> w'.capps[k] == w.capps[k])
      && (!plan.Syncing? ==> w'.files == w.files)
      && (!f.git.landed || path !in f.git.carried ==>
            (path in w'.files <==> path in w.files) && (path in w.files ==> w'.files[path] == w.files[path]))
  {
    if plan.Syncing? {
      GitWriteFiles(cfg, w, plan.key, if plan.enable then Some(plan.read.spec) else None, f.git, path);
    }
  }

  lemma SecondIsOwn(cfg: Config, w: Stores, rest: Rest, f: Faults, k: Key, path: RelPath)
    requires k != rest.key && path != FileOf(cfg, rest.key)
    ensures var (w', _) := SecondStep(cfg, w, rest, f);
      && (k in w'.capps <==> k in w.capps) && (k in w.capps ==> w'.capps[k] == w.capps[k])
      && (!rest.Backing? ==> w'.files == w.files)
      && (!f.git.landed || path !in f.git.carried ==>
            (path in w'.files <==> path in w.files) && (path in w.files ==> w'.files[path] == w.files[path]))
  {
    if rest.Backing? {
      GitWriteFiles(cfg, w, rest.key, rest.content, f.git, path);
    }
  }

  /** The file a sync or unsync asks for. */
  function Asked(w: Stores, key: Key, enable: bool): Option<Spec>
    requires key in w.capps
  {
    if enable then Some(w.capps[key].spec) else None
  }

  /**
   A sync or unsync that reports success sets the label as asked. From any state it makes the two stores agree
   exactly when its change reached the remote, or was there already.
   */
  lemma SuccessfulSyncRestores(cfg: Config, w: Stores, key: Key, enable: bool, f: Faults)
    requires Handle(cfg, w, SetGitSync(key, enable), f).1.Done?
    ensures var w' := Handle(cfg, w, SetGitSync(key, enable), f).0;
      && key in w.capps && key in w'.capps
      && HasBackupLabel(w'.capps[key].labels) == enable && w'.capps[key].spec == w.capps[key].spec
      && (Consistent(cfg, w', key) <==> f.git.landed || FileIs(cfg, w, key, Asked(w, key, enable)))
  {
    hide Put, GitWrite;
    var w1 := GitWrite(cfg, w, key, Asked(w, key, enable), f.git);
    GitWriteFiles(cfg, w, key, Asked(w, key, enable), f.git, FileOf(cfg, key));
    PatchStores(w1, key, enable, w.capps[key].labels);
  }

  lemma PatchStores(w: Stores, key: Key, enable: bool, read: map<string, string>)
    requires key in w.capps && w.capps[key].labels == read
    ensures var w' := PatchLabel(w, key, enable, read);
      && w'.files == w.files && key in w'.capps && w'.capps[key].spec == w.capps[key].spec
      && HasBackupLabel(w'.capps[key].labels) == enable
  {
  }

  lemma DoneIsAcked(cfg: Config, w: Stores, key: Key, enable: bool, f: Faults)
    requires Handle(cfg, w, SetGitSync(key, enable), f).1.Done?
    ensures f.git.acked && key in w.capps
    ensures Handle(cfg, w, SetGitSync(key, enable), f).0.files == GitEffect(f.git, FileOp(cfg, key, Asked(w, key, enable)), w.files)
  {
  }

  /**
   The same through the client, whatever state its clone is in: a successful sync restores agreement unless it found
   the file as asked on disk only, left there by an earlier call whose local steps failed.
   */
  lemma SyncThroughClient(cfg: Config, w: Stores, key: Key, enable: bool, f: Faults, c: Clone, remote: Commit, tip: Commit, world: World)
    requires key in w.capps
    requires var op := FileOp(cfg, key, Asked(w, key, enable));
      f.git == AsGit(c, remote, op, tip, world) && w.files == Found(c, remote, op, tip, world).tree
    requires Handle(cfg, w, SetGitSync(key, enable), f).1.Done?
    ensures var op := FileOp(cfg, key, Asked(w, key, enable));
      var w' := Handle(cfg, w, SetGitSync(key, enable), f).0;
      && w'.files == GitOpsClient.Call(c, remote, op, tip, world).2.tree
      && (Consistent(cfg, w', key) <==> !OnDiskAsAsked(c, remote, op, world))
  {
    hide Handle, AsGit, Found, GitOpsClient.Call, Consistent, FileOp, Holds, GitEffect, OnDiskAsAsked;
    var op := FileOp(cfg, key, Asked(w, key, enable));
    SuccessfulSyncRestores(cfg, w, key, enable, f);
    DoneIsAcked(cfg, w, key, enable, f);
    CallIsGit(c, remote, op, tip, world);
    FalseSuccessExactly(c, remote, op, tip, world);
    AckedPulled(c, remote, op, tip, world);
  }

  /** A failed sync or unsync changes no Capp. It changes the file exactly if its push landed and the file was not as asked already. */
  lemma FailedSync(cfg: Config, w: Stores, key: Key, enable: bool, f: Faults)
    requires Handle(cfg, w, SetGitSync(key, enable), f).1.Failed?
    ensures var (w', r) := Handle(cfg, w, SetGitSync(key, enable), f);
      && w'.capps == w.capps
      && (r.error != GitopsFailed && r.error != PatchFailed ==> w' == w)
      && (r.error == GitopsFailed ==> !f.git.acked)
      && (r.error == GitopsFailed || r.error == PatchFailed ==>
            && key in w.capps && (f.git.landed ==> FileIs(cfg, w', key, Asked(w, key, enable)))
            && (FileIs(cfg, w', key, Asked(w, key, enable)) && !FileIs(cfg, w, key, Asked(w, key, enable)) ==> f.git.landed)
            && (f.git.carried == map[] ==> (w' == w <==> !f.git.landed || FileIs(cfg, w, key, Asked(w, key, enable)))))
  {
    if key in w.capps {
      var op := FileOp(cfg, key, Asked(w, key, enable));
      GitWriteFiles(cfg, w, key, Asked(w, key, enable), f.git, FileOf(cfg, key));
      CarryNothing(w.files);
      GitOpsFleet.EffectHolds(op, w.files);
    }
  }

  /** The call got as far as its Git write. */
  predicate ReachedGit(cfg: Config, w: Stores, call: Call, r: Response) {
    match call
    case Create(_, _) => false
    case SetGitSync(_, _) => r.Done? || r.error == GitopsFailed || r.error == PatchFailed
    case _ => r.Done? && call.key in w.capps && HasBackupLabel(w.capps[call.key].labels)
  }

  /** Exactly when a call on a consistent Capp leaves it consistent, for every call and all that can happen to it. */
  predicate Keeps(cfg: Config, w: Stores, call: Call, f: Faults, r: Response) {
    ReachedGit(cfg, w, call, r) && call.key in w.capps ==>
      match call
      case SetGitSync(key, enable) =>
        // Only one of file and label was changed, or the label patch failed; harmless if both were as asked.
        f.git.landed == r.Done? || HasBackupLabel(w.capps[key].labels) == enable
      case Delete(_) => f.git.landed
      case _ => f.git.landed || (f.stored.Some? && cfg.render(call.key, f.stored.value) == cfg.render(call.key, w.capps[call.key].spec))
  }

  lemma CallKeepsExactly(cfg: Config, w: Stores, call: Call, f: Faults)
    requires Ready(cfg) && Consistent(cfg, w, call.key)
    ensures var (w', r) := Handle(cfg, w, call, f);
      Consistent(cfg, w', call.key) <==> Keeps(cfg, w, call, f, r)
  {
    match call
    case Create(_, _) =>
    case Update(_, _) => ReplaceKeepsExactly(cfg, w, call, f);
    case Rollback(_, _) => ReplaceKeepsExactly(cfg, w, call, f);
    case Delete(key) => GitWriteFiles(cfg, w.(capps := w.capps - {key}), key, None, f.git, FileOf(cfg, key));
    case SetGitSync(key, enable) => SyncKeepsExactly(cfg, w, key, enable, f);
  }

  lemma SyncKeepsExactly(cfg: Config, w: Stores, key: Key, enable: bool, f: Faults)
    requires Ready(cfg) && Consistent(cfg, w, key)
    ensures var (w', r) := Handle(cfg, w, SetGitSync(key, enable), f);
      Consistent(cfg, w', key) <==> Keeps(cfg, w, SetGitSync(key, enable), f, r)
  {
    if key in w.capps {
      hide Put, GitWrite, PatchLabel;
      var w1 := GitWrite(cfg, w, key, Asked(w, key, enable), f.git);
      GitWriteFiles(cfg, w, key, Asked(w, key, enable), f.git, FileOf(cfg, key));
      PatchStores(w1, key, enable, w.capps[key].labels);
    }
  }

  lemma ReplaceKeepsExactly(cfg: Config, w: Stores, call: Call, f: Faults)
    requires Ready(cfg) && Consistent(cfg, w, call.key) && (call.Update? || call.Rollback?)
    ensures var (w', r) := Handle(cfg, w, call, f);
      Consistent(cfg, w', call.key) <==> Keeps(cfg, w, call, f, r)
  {
    var begun := Read(cfg, w, call, f);
    if begun.Planned? && f.stored.Some? {
      if call.Rollback? {
        TemplateKeepsBackupLabel(w.capps[call.key], call.template.value);
      }
      var w1 := FirstStep(cfg, w, begun.plan, f).0;
      GitWriteFiles(cfg, w1, call.key, f.stored, f.git, FileOf(cfg, call.key));
    }
  }
}
