/** What ends up in Git when backup calls overlap, and what any number of overlapping updates and rollbacks leave behind. */
module BackupReplacements {
  import opened Prelude
  import opened GitOpsClient
  import opened GitOpsRemote
  import opened Backup
  import opened BackupRuns
  import opened BackupOverlap

  // ---- What is in Git after a run ------------------------------------------

  /** The file at a path, if there is one. */
  function FileAt(files: Tree, path: RelPath): Option<Bytes> {
    if path in files then Some(files[path]) else None
  }

  /** What the last Git write of a run that reached a path put there. */
  function LastPut(cfg: Config, s: System, steps: seq<Step>, path: RelPath): Option<Bytes> {
    if steps == [] then FileAt(s.w.files, path)
    else
      var front, step := steps[..|steps| - 1], steps[|steps| - 1];
      var e := Run(cfg, s, front);
      if step.Move? && step.id in e.jobs then PutBy(cfg, e.jobs[step.id], step.f, path, LastPut(cfg, s, front, path))
      else LastPut(cfg, s, front, path)
  }

  function PutBy(cfg: Config, job: Job, f: Faults, path: RelPath, before: Option<Bytes>): Option<Bytes> {
    var content := GitContent(job);
    if content.None? || !f.git.landed then before
    else
      var op := FileOp(cfg, KeyOf(job), content.value);
      if path == op.path then op.content
      else if path in f.git.carried then f.git.carried[path]
      else before
  }

  lemma EffectAt(op: Op, tree: Tree, carried: map<RelPath, Option<Bytes>>, path: RelPath)
    ensures FileAt(Effect(op, Carry(tree, carried)), path)
      == if path == op.path then op.content else if path in carried then carried[path] else FileAt(tree, path)
  {
    assert FileAt(Carry(tree, carried), path) == if path in carried then carried[path] else FileAt(tree, path);
  }

  lemma MoveFiles(cfg: Config, s: System, id: nat, job: Job, f: Faults)
    ensures var s', content := MoveJob(cfg, s, id, job, f), GitContent(job);
      s'.w.files == if content.Some? then GitEffect(f.git, FileOp(cfg, KeyOf(job), content.value), s.w.files) else s.w.files
  {
  }

  lemma MoveWrites(cfg: Config, s: System, id: nat, job: Job, f: Faults, path: RelPath)
    ensures FileAt(MoveJob(cfg, s, id, job, f).w.files, path) == PutBy(cfg, job, f, path, FileAt(s.w.files, path))
  {
    hide MoveJob, Effect, Carry, FileAt, FileOp;
    var content := GitContent(job);
    MoveFiles(cfg, s, id, job, f);
    if content.Some? && f.git.landed {
      EffectAt(FileOp(cfg, KeyOf(job), content.value), s.w.files, f.git.carried, path);
    }
  }

  /** However calls overlap and whatever fails, a file is what the last Git write that reached it put there. */
  lemma {:induction false} WritesDecide(cfg: Config, s: System, steps: seq<Step>, path: RelPath)
    ensures FileAt(Run(cfg, s, steps).w.files, path) == LastPut(cfg, s, steps, path)
  {
    hide MoveJob, Read, PutBy;
    if steps != [] {
      var front, step := steps[..|steps| - 1], steps[|steps| - 1];
      WritesDecide(cfg, s, front, path);
      var e := Run(cfg, s, front);
      if step.Move? && step.id in e.jobs {
        MoveWrites(cfg, e, step.id, e.jobs[step.id], step.f, path);
      }
    }
  }

  // ---- Any number of updates and rollbacks ----------------------------------

  /** Only updates and rollbacks arrive at this Capp, and no push of another call takes its file along. */
  predicate OnlyReplaced(cfg: Config, steps: seq<Step>, key: Key) {
    forall i | 0 <= i < |steps| :: Replaced(cfg, steps[i], key)
  }

  predicate Replaced(cfg: Config, step: Step, key: Key) {
    match step
    case Arrive(_, call, _) => call.key == key ==> call.Update? || call.Rollback?
    case Move(_, f) => FileOf(cfg, key) !in f.git.carried
  }

  predicate Replacement(job: Job) {
    match job
    case Doing(Replacing(_, updated, backup)) => backup && HasBackupLabel(updated.labels)
    case Finishing(Backing(_, content)) => content.Some?
    case _ => false
  }

  predicate BackedUp(s: System, key: Key) {
    && key in s.w.capps && HasBackupLabel(s.w.capps[key].labels)
    && forall id | id in s.jobs && KeyOf(s.jobs[id]) == key :: Replacement(s.jobs[id])
  }

  /** The spec of the last cluster write of this Capp that was accepted. */
  function LastStored(cfg: Config, s: System, steps: seq<Step>, key: Key, initial: Spec): Spec {
    if steps == [] then initial
    else
      var front, step := steps[..|steps| - 1], steps[|steps| - 1];
      var e := Run(cfg, s, front);
      if step.Move? && step.id in e.jobs && Accepted(cfg, e.w, e.jobs[step.id], step.f, key) then step.f.stored.value
      else LastStored(cfg, s, front, key, initial)
  }

  predicate Accepted(cfg: Config, w: Stores, job: Job, f: Faults, key: Key)
    ensures Accepted(cfg, w, job, f, key) ==> f.stored.Some?
  {
    job.Doing? && job.plan.Replacing? && job.plan.key == key && f.stored.Some? && Answer(cfg, w, job, f) != Some(Failed(WriteFailed))
  }

  /** The spec of the last Git write of this Capp that reached the remote. */
  function LastBackup(cfg: Config, s: System, steps: seq<Step>, key: Key, initial: Spec): Spec {
    if steps == [] then initial
    else
      var front, step := steps[..|steps| - 1], steps[|steps| - 1];
      var e := Run(cfg, s, front);
      if step.Move? && step.id in e.jobs && BacksUp(e.jobs[step.id], step.f, key) then e.jobs[step.id].rest.content.value
      else LastBackup(cfg, s, front, key, initial)
  }

  predicate BacksUp(job: Job, f: Faults, key: Key)
    ensures BacksUp(job, f, key) ==> job.Finishing? && job.rest.Backing? && job.rest.content.Some?
  {
    match job
    case Finishing(Backing(k, Some(_))) => k == key && f.git.landed
    case _ => false
  }

  /** The Capp is backed up, with this live spec and this spec in its file. */
  predicate SpecsAre(cfg: Config, s: System, key: Key, stored: Spec, backup: Spec) {
    BackedUp(s, key) && s.w.capps[key].spec == stored && FileAt(s.w.files, FileOf(cfg, key)) == Some(cfg.render(key, backup))
  }

  lemma ReplacementMoves(cfg: Config, s: System, id: nat, f: Faults, key: Key, stored: Spec, backup: Spec)
    requires Ready(cfg) && SpecsAre(cfg, s, key, stored, backup) && id in s.jobs && FileOf(cfg, key) !in f.git.carried
    ensures SpecsAre(cfg, MoveJob(cfg, s, id, s.jobs[id], f), key,
                    if Accepted(cfg, s.w, s.jobs[id], f, key) then f.stored.value else stored,
                    if BacksUp(s.jobs[id], f, key) then s.jobs[id].rest.content.value else backup)
  {
    hide Put, GitWrite, Effect, Carry, PatchLabel;
    var job, file := s.jobs[id], FileOf(cfg, key);
    MoveWrites(cfg, s, id, job, f, file);
    if KeyOf(job) == key {
      assert Replacement(job);
      OwnReplacement(cfg, s, id, f, key);
    } else {
      FilesAreSeparate(cfg, key, KeyOf(job));
      OtherMoves(cfg, s, id, f, key);
    }
  }

  lemma OwnReplacement(cfg: Config, s: System, id: nat, f: Faults, key: Key)
    requires BackedUp(s, key) && id in s.jobs && KeyOf(s.jobs[id]) == key
    ensures var s' := MoveJob(cfg, s, id, s.jobs[id], f);
      && BackedUp(s', key)
      && s'.w.capps[key].spec == if Accepted(cfg, s.w, s.jobs[id], f, key) then f.stored.value else s.w.capps[key].spec
  {
    assert Replacement(s.jobs[id]);
  }

  lemma ReplacementArrives(cfg: Config, s: System, id: nat, call: Backup.Call, f: Faults, key: Key)
    requires Ready(cfg) && BackedUp(s, key) && id !in s.jobs
    requires call.key == key ==> call.Update? || call.Rollback?
    ensures BackedUp(Next(cfg, s, Arrive(id, call, f)), key)
  {
    ReadIsOwn(cfg, s.w, call, f);
    if call.Rollback? && call.key == key && call.template.Some? {
      TemplateKeepsBackupLabel(s.w.capps[key], call.template.value);
    }
  }

  lemma {:induction false} SpecsFollow(cfg: Config, s: System, steps: seq<Step>, key: Key, stored: Spec, backup: Spec)
    requires Ready(cfg) && SpecsAre(cfg, s, key, stored, backup) && OnlyReplaced(cfg, steps, key)
    ensures SpecsAre(cfg, Run(cfg, s, steps), key, LastStored(cfg, s, steps, key, stored), LastBackup(cfg, s, steps, key, backup))
  {
    hide BackedUp, Read, MoveJob, Accepted, BacksUp, FileOf, FileAt;
    if steps != [] {
      var front, step := steps[..|steps| - 1], steps[|steps| - 1];
      assert Replaced(cfg, step, key);
      assert forall i | 0 <= i < |front| :: front[i] == steps[i];
      SpecsFollow(cfg, s, front, key, stored, backup);
      var e := Run(cfg, s, front);
      if step.Move? && step.id in e.jobs {
        ReplacementMoves(cfg, e, step.id, step.f, key, LastStored(cfg, s, front, key, stored), LastBackup(cfg, s, front, key, backup));
      } else if step.Arrive? && step.id !in e.jobs {
        ReplacementArrives(cfg, e, step.id, step.call, step.f, key);
      }
    }
  }

  /**
   Any number of updates and rollbacks of a backed-up Capp may overlap, with each other and with calls on others: it stays
   backed up, and at every moment the stores agree exactly when the last accepted cluster write and the last Git write
   that reached the remote were of specs that render alike.
   */
  lemma OverlappingReplacements(cfg: Config, s: System, steps: seq<Step>, key: Key)
    requires Ready(cfg) && BackedUp(s, key) && Consistent(cfg, s.w, key) && OnlyReplaced(cfg, steps, key)
    ensures var e, initial := Run(cfg, s, steps), s.w.capps[key].spec;
      && BackedUp(e, key) && e.w.capps[key].spec == LastStored(cfg, s, steps, key, initial)
      && (Consistent(cfg, e.w, key) <==>
            cfg.render(key, LastStored(cfg, s, steps, key, initial)) == cfg.render(key, LastBackup(cfg, s, steps, key, initial)))
  {
    hide LastStored, LastBackup;
    SpecsFollow(cfg, s, steps, key, s.w.capps[key].spec, s.w.capps[key].spec);
  }
}
