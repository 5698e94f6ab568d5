/**
 Any number of backup calls at once. A call reads when it arrives and then makes one or two writes; steps of
 different calls come in any order, and each meets its own faults.
 */
module BackupOverlap {
  import opened Prelude
  import opened GitOpsClient
  import opened GitOpsRemote
  import opened Backup
  import opened BackupRuns

  datatype Job = Doing(plan: Plan) | Finishing(rest: Rest)

  /** marked lists the files that may disagree: a caller was told so, an answer was wrong, or a push took a leftover along. */
  datatype System = System(w: Stores, jobs: map<nat, Job>, marked: set<RelPath>)

  datatype Step =
    | Arrive(id: nat, call: Backup.Call, f: Faults)
    | Move(id: nat, f: Faults)

  function KeyOf(job: Job): Key {
    if job.Doing? then job.plan.key else job.rest.key
  }

  /** What the own Git write of a step puts there, if it makes one. */
  function GitContent(job: Job): Option<Option<Spec>> {
    match job
    case Doing(Syncing(_, enable, read)) => Some(if enable then Some(read.spec) else None)
    case Finishing(Backing(_, content)) => Some(content)
    case _ => None
  }

  /** A Git write that answers the truth and succeeds settles a sync; one that does not do both leaves a mark. */
  function Marked(cfg: Config, marked: set<RelPath>, job: Job, f: Faults, failed: bool): set<RelPath> {
    var own := FileOf(cfg, KeyOf(job));
    var others := if GitContent(job).Some? && f.git.landed then marked + (f.git.carried.Keys - {own}) else marked;
    match job
    case Doing(Syncing(_, _, _)) =>
      if f.git.landed && f.git.acked then others - {own}
      else if f.git.landed || f.git.acked then others + {own}
      else others
    case Finishing(Backing(_, _)) => if f.git.landed && f.git.acked then others else others + {own}
    case Finishing(Labelling(_, _, _)) => if failed then others + {own} else others
    case Doing(_) => others
  }

  function Next(cfg: Config, s: System, step: Step): System {
    match step
    case Arrive(id, call, f) =>
      if id in s.jobs then s
      else
        var begun := Read(cfg, s.w, call, f);
        if begun.Refused? then s else s.(jobs := s.jobs[id := Doing(begun.plan)])
    case Move(id, f) =>
      if id !in s.jobs then s
      else MoveJob(cfg, s, id, s.jobs[id], f)
  }

  function MoveJob(cfg: Config, s: System, id: nat, job: Job, f: Faults): System {
    match job
    case Doing(plan) =>
      var (w, half) := FirstStep(cfg, s.w, plan, f);
      System(w, if half.Left? then s.jobs[id := Finishing(half.rest)] else s.jobs - {id},
             Marked(cfg, s.marked, job, f, false))
    case Finishing(rest) =>
      var (w, r) := SecondStep(cfg, s.w, rest, f);
      System(w, s.jobs - {id}, Marked(cfg, s.marked, job, f, r.Failed?))
  }

  function Run(cfg: Config, s: System, steps: seq<Step>): System {
    if steps == [] then s else Next(cfg, Run(cfg, s, steps[..|steps| - 1]), steps[|steps| - 1])
  }

  /** The call has read and is about to write, or was refused. */
  predicate AtStart(s: System, id: nat, begun: Begun) {
    if begun.Planned? then id in s.jobs && s.jobs[id] == Doing(begun.plan) else id !in s.jobs
  }

  /** The call has made its first write, and is over or has one left. */
  predicate AtHalf(s: System, id: nat, half: Half) {
    if half.Left? then id in s.jobs && s.jobs[id] == Finishing(half.rest) else id !in s.jobs
  }

  ghost predicate OthersStay(s: System, s': System, id: nat) {
    forall k | k != id :: (k in s'.jobs <==> k in s.jobs) && (k in s.jobs ==> s'.jobs[k] == s.jobs[k])
  }

  lemma ArriveIsRead(cfg: Config, s: System, id: nat, call: Backup.Call, f: Faults) returns (s': System)
    requires id !in s.jobs
    ensures s' == Next(cfg, s, Arrive(id, call, f)) && s'.w == s.w && AtStart(s', id, Read(cfg, s.w, call, f)) && OthersStay(s, s', id)
  {
    hide Read;
    s' := Next(cfg, s, Arrive(id, call, f));
  }

  lemma StartIsMove(cfg: Config, s: System, id: nat, begun: Begun, f: Faults) returns (s': System, half: Half)
    requires AtStart(s, id, begun)
    ensures s' == Next(cfg, s, Move(id, f)) && (s'.w, half) == Start(cfg, s.w, begun, f) && AtHalf(s', id, half) && OthersStay(s, s', id)
  {
    hide FirstStep, SecondStep, Marked;
    s', half := Next(cfg, s, Move(id, f)), Start(cfg, s.w, begun, f).1;
  }

  lemma CompleteIsMove(cfg: Config, s: System, id: nat, half: Half, f: Faults) returns (s': System, r: Response)
    requires AtHalf(s, id, half)
    ensures s' == Next(cfg, s, Move(id, f)) && (s'.w, r) == Complete(cfg, s.w, half, f) && id !in s'.jobs && OthersStay(s, s', id)
  {
    hide FirstStep, SecondStep, Marked;
    s', r := Next(cfg, s, Move(id, f)), Complete(cfg, s.w, half, f).1;
  }

  /** A call whose steps nothing comes between is the handler's call. */
  lemma SerialIsHandle(cfg: Config, s: System, id: nat, call: Backup.Call, f: Faults)
    requires id !in s.jobs
    ensures var arrived := Next(cfg, s, Arrive(id, call, f));
      var moved := Next(cfg, arrived, Move(id, f));
      var e := Next(cfg, moved, Move(id, f));
      e.w == Handle(cfg, s.w, call, f).0 && e.jobs == s.jobs
  {
    hide Next, Read, Start, Complete;
    var arrived := ArriveIsRead(cfg, s, id, call, f);
    var moved, half := StartIsMove(cfg, arrived, id, Read(cfg, s.w, call, f), f);
    var e, r := CompleteIsMove(cfg, moved, id, half, f);
  }

  // ---- Calls on one Capp in an orderly schedule -----------------------------

  /** Past the read of a delete, a sync or an unsync, or between the two writes of any call. */
  predicate Busy(job: Job) {
    job.Finishing? || job.plan.Deleting? || job.plan.Syncing?
  }

  predicate Free(s: System, key: Key) {
    forall id | id in s.jobs && KeyOf(s.jobs[id]) == key :: !Busy(s.jobs[id])
  }

  /**
   Creates, updates and rollbacks may read at any time, and overlap there. Only their cluster writes, and the arrival of a
   delete, a sync or an unsync, wait until no other call on the Capp is busy.
   */
  predicate Orderly(s: System, step: Step, key: Key) {
    match step
    case Arrive(id, call, _) => call.key == key && (call.Delete? || call.SetGitSync?) ==> Free(s, key)
    case Move(id, _) => id in s.jobs && KeyOf(s.jobs[id]) == key && !Busy(s.jobs[id]) ==> Free(s, key)
  }

  predicate AlwaysOrderly(cfg: Config, s: System, steps: seq<Step>, key: Key) {
    steps == [] ||
    var front := steps[..|steps| - 1];
    AlwaysOrderly(cfg, s, front, key) && Orderly(Run(cfg, s, front), steps[|steps| - 1], key)
  }

  /** What a call under way knows about its Capp. A replacement that read an older version may be wrong about everything. */
  predicate JobOk(cfg: Config, w: Stores, marked: bool, job: Job) {
    var key := KeyOf(job);
    match job
    case Doing(Creating(_)) => true
    case Doing(Replacing(_, updated, backup)) =>
      && updated.version < w.clock
      && (key in w.capps && updated.version == w.capps[key].version ==>
            && (HasBackupLabel(updated.labels) <==> HasBackupLabel(w.capps[key].labels))
            && (backup <==> HasBackupLabel(w.capps[key].labels)))
    case Doing(Deleting(_, backup)) =>
      && key in w.capps && (backup <==> HasBackupLabel(w.capps[key].labels)) && (marked || Consistent(cfg, w, key))
    case Doing(Syncing(_, _, read)) => key in w.capps && w.capps[key] == read && (marked || Consistent(cfg, w, key))
    case Finishing(Backing(_, Some(spec))) => key in w.capps && w.capps[key].spec == spec && HasBackupLabel(w.capps[key].labels)
    case Finishing(Backing(_, None)) => key !in w.capps
    case Finishing(Labelling(_, enable, read)) =>
      && key in w.capps && w.capps[key].labels == read
      && (marked || FileIs(cfg, w, key, Asked(w, key, enable)))
  }

  /** At most one call is busy on the Capp, every call knows what it should, and when none is busy the stores agree or are marked. */
  predicate KeyOk(cfg: Config, s: System, key: Key) {
    var marked := FileOf(cfg, key) in s.marked;
    && (key in s.w.capps ==> s.w.capps[key].version < s.w.clock)
    && (forall a, b | a in s.jobs && b in s.jobs && KeyOf(s.jobs[a]) == KeyOf(s.jobs[b]) == key ::
          Busy(s.jobs[a]) && Busy(s.jobs[b]) ==> a == b)
    && (forall id | id in s.jobs && KeyOf(s.jobs[id]) == key :: JobOk(cfg, s.w, marked, s.jobs[id]))
    && (Free(s, key) ==> marked || Consistent(cfg, s.w, key))
  }

  /** Nothing changed for this Capp, except that its file may have been marked. */
  predicate Untouched(cfg: Config, w: Stores, w': Stores, marked: bool, marked': bool, key: Key) {
    var file := FileOf(cfg, key);
    && w.clock <= w'.clock
    && (key in w'.capps <==> key in w.capps) && (key in w.capps ==> w'.capps[key] == w.capps[key])
    && (marked ==> marked')
    && (marked' || ((file in w'.files <==> file in w.files) && (file in w.files ==> w'.files[file] == w.files[file])))
  }

  /** The Capp is as it was, gone, or of a version no earlier read can have seen. */
  predicate Renewed(w: Stores, w': Stores, key: Key) {
    && w.clock <= w'.clock
    && (key in w'.capps ==> (key in w.capps && w'.capps[key] == w.capps[key]) || w.clock <= w'.capps[key].version < w'.clock)
  }

  lemma UntouchedJob(cfg: Config, w: Stores, w': Stores, marked: bool, marked': bool, job: Job)
    requires JobOk(cfg, w, marked, job) && Untouched(cfg, w, w', marked, marked', KeyOf(job))
    ensures JobOk(cfg, w', marked', job)
  {
  }

  /** A replacement or create that is still to write survives whatever another call does to the Capp. */
  lemma WaitingJob(cfg: Config, w: Stores, w': Stores, marked: bool, marked': bool, job: Job)
    requires JobOk(cfg, w, marked, job) && !Busy(job) && Renewed(w, w', KeyOf(job))
    ensures JobOk(cfg, w', marked', job)
  {
  }

  lemma OtherMoves(cfg: Config, s: System, id: nat, f: Faults, key: Key)
    requires Ready(cfg) && id in s.jobs && KeyOf(s.jobs[id]) != key
    ensures var s' := MoveJob(cfg, s, id, s.jobs[id], f);
      && Untouched(cfg, s.w, s'.w, FileOf(cfg, key) in s.marked, FileOf(cfg, key) in s'.marked, key)
      && (id in s'.jobs ==> KeyOf(s'.jobs[id]) != key)
  {
    var job := s.jobs[id];
    FilesAreSeparate(cfg, key, KeyOf(job));
    if job.Doing? {
      FirstIsOwn(cfg, s.w, job.plan, f, key, FileOf(cfg, key));
    } else {
      SecondIsOwn(cfg, s.w, job.rest, f, key, FileOf(cfg, key));
    }
  }

  lemma UntouchedKey(cfg: Config, s: System, s': System, key: Key)
    requires KeyOk(cfg, s, key)
    requires Untouched(cfg, s.w, s'.w, FileOf(cfg, key) in s.marked, FileOf(cfg, key) in s'.marked, key)
    requires forall id :: id in s'.jobs && KeyOf(s'.jobs[id]) == key <==> id in s.jobs && KeyOf(s.jobs[id]) == key
    requires forall id | id in s.jobs && KeyOf(s.jobs[id]) == key :: s'.jobs[id] == s.jobs[id]
    ensures KeyOk(cfg, s', key)
  {
    forall id | id in s'.jobs && KeyOf(s'.jobs[id]) == key
      ensures JobOk(cfg, s'.w, FileOf(cfg, key) in s'.marked, s'.jobs[id])
    {
      UntouchedJob(cfg, s.w, s'.w, FileOf(cfg, key) in s.marked, FileOf(cfg, key) in s'.marked, s.jobs[id]);
    }
    if Free(s', key) {
      forall id | id in s.jobs && KeyOf(s.jobs[id]) == key ensures !Busy(s.jobs[id]) {
        assert id in s'.jobs && KeyOf(s'.jobs[id]) == key;
      }
    }
  }

  /** A job that starts well, beside those there are. */
  lemma Arrives(cfg: Config, s: System, id: nat, call: Backup.Call, f: Faults)
    requires Ready(cfg) && KeyOk(cfg, s, call.key) && (call.Delete? || call.SetGitSync? ==> Free(s, call.key))
    requires Read(cfg, s.w, call, f).Planned?
    ensures var job := Doing(Read(cfg, s.w, call, f).plan);
      && KeyOf(job) == call.key && JobOk(cfg, s.w, FileOf(cfg, call.key) in s.marked, job)
      && (Busy(job) ==> Free(s, call.key))
  {
    var key := call.key;
    if call.Rollback? && key in s.w.capps && call.template.Some? {
      TemplateKeepsBackupLabel(s.w.capps[key], call.template.value);
    }
  }

  lemma ReadIsOwn(cfg: Config, w: Stores, call: Backup.Call, f: Faults)
    ensures Read(cfg, w, call, f).Planned? ==> Read(cfg, w, call, f).plan.key == call.key
  {
  }

  /** One more job that knows what it should, and is not busy beside another that is. */
  lemma JoinKeeps(cfg: Config, s: System, id: nat, job: Job, key: Key)
    requires KeyOk(cfg, s, key) && id !in s.jobs
    requires KeyOf(job) == key ==> JobOk(cfg, s.w, FileOf(cfg, key) in s.marked, job) && (Busy(job) ==> Free(s, key))
    ensures KeyOk(cfg, s.(jobs := s.jobs[id := job]), key)
  {
    hide JobOk, Consistent, Busy, KeyOf;
    var s' := s.(jobs := s.jobs[id := job]);
    forall other | other in s.jobs ensures other in s'.jobs && s'.jobs[other] == s.jobs[other] {
    }
    forall a, b | a in s'.jobs && b in s'.jobs && KeyOf(s'.jobs[a]) == KeyOf(s'.jobs[b]) == key && Busy(s'.jobs[a]) && Busy(s'.jobs[b])
      ensures a == b
    {
    }
    assert Free(s', key) ==> Free(s, key);
  }

  lemma ArriveKeeps(cfg: Config, s: System, id: nat, call: Backup.Call, f: Faults, key: Key)
    requires Ready(cfg) && KeyOk(cfg, s, key) && id !in s.jobs && Orderly(s, Arrive(id, call, f), key)
    ensures KeyOk(cfg, Next(cfg, s, Arrive(id, call, f)), key)
  {
    hide Read, JobOk, Consistent, Busy, KeyOk, Free;
    var begun := Read(cfg, s.w, call, f);
    ReadIsOwn(cfg, s.w, call, f);
    if begun.Planned? {
      if call.key == key {
        Arrives(cfg, s, id, call, f);
      }
      JoinKeeps(cfg, s, id, Doing(begun.plan), key);
    }
  }

  /** What the first step of a call does, when no other is busy. */
  lemma FirstMove(cfg: Config, s: System, id: nat, plan: Plan, f: Faults)
    requires Ready(cfg) && JobOk(cfg, s.w, FileOf(cfg, plan.key) in s.marked, Doing(plan))
    requires plan.key in s.w.capps ==> s.w.capps[plan.key].version < s.w.clock
    requires FileOf(cfg, plan.key) in s.marked || Consistent(cfg, s.w, plan.key)
    ensures var s' := MoveJob(cfg, s, id, Doing(plan), f);
      var marked := FileOf(cfg, plan.key) in s'.marked;
      && Renewed(s.w, s'.w, plan.key)
      && if id in s'.jobs then KeyOf(s'.jobs[id]) == plan.key && Busy(s'.jobs[id]) && JobOk(cfg, s'.w, marked, s'.jobs[id])
         else marked || Consistent(cfg, s'.w, plan.key)
  {
    if plan.Syncing? {
      GitWriteFiles(cfg, s.w, plan.key, if plan.enable then Some(plan.read.spec) else None, f.git, FileOf(cfg, plan.key));
    }
  }

  lemma SecondMove(cfg: Config, s: System, id: nat, rest: Rest, f: Faults)
    requires Ready(cfg) && JobOk(cfg, s.w, FileOf(cfg, rest.key) in s.marked, Finishing(rest))
    requires rest.key in s.w.capps ==> s.w.capps[rest.key].version < s.w.clock
    ensures var s' := MoveJob(cfg, s, id, Finishing(rest), f);
      && Renewed(s.w, s'.w, rest.key)
      && id !in s'.jobs && (FileOf(cfg, rest.key) in s'.marked || Consistent(cfg, s'.w, rest.key))
  {
    if rest.Backing? {
      GitWriteFiles(cfg, s.w, rest.key, rest.content, f.git, FileOf(cfg, rest.key));
    }
  }

  /** No other call on the Capp is busy when one moves. */
  lemma OthersWait(cfg: Config, s: System, id: nat, f: Faults, key: Key)
    requires KeyOk(cfg, s, key) && id in s.jobs && KeyOf(s.jobs[id]) == key && Orderly(s, Move(id, f), key)
    ensures forall other | other in s.jobs && other != id && KeyOf(s.jobs[other]) == key :: !Busy(s.jobs[other])
    ensures !s.jobs[id].Finishing? ==> FileOf(cfg, key) in s.marked || Consistent(cfg, s.w, key)
  {
    assert JobOk(cfg, s.w, FileOf(cfg, key) in s.marked, s.jobs[id]);
  }

  lemma OwnMoves(cfg: Config, s: System, id: nat, f: Faults, key: Key)
    requires Ready(cfg) && KeyOk(cfg, s, key) && id in s.jobs && KeyOf(s.jobs[id]) == key && Orderly(s, Move(id, f), key)
    ensures KeyOk(cfg, MoveJob(cfg, s, id, s.jobs[id], f), key)
  {
    hide FirstStep, SecondStep, JobOk, Consistent, Marked, Busy;
    var job := s.jobs[id];
    OthersWait(cfg, s, id, f, key);
    if job.Doing? {
      FirstMove(cfg, s, id, job.plan, f);
    } else {
      SecondMove(cfg, s, id, job.rest, f);
    }
    var s' := MoveJob(cfg, s, id, job, f);
    forall other | other in s'.jobs && KeyOf(s'.jobs[other]) == key && other != id
      ensures other in s.jobs && s'.jobs[other] == s.jobs[other] && !Busy(s'.jobs[other])
      ensures JobOk(cfg, s'.w, FileOf(cfg, key) in s'.marked, s'.jobs[other])
    {
      WaitingJob(cfg, s.w, s'.w, FileOf(cfg, key) in s.marked, FileOf(cfg, key) in s'.marked, s.jobs[other]);
    }
    if id in s'.jobs {
      assert !Free(s', key);
    }
  }

  lemma MoveKeeps(cfg: Config, s: System, id: nat, f: Faults, key: Key)
    requires Ready(cfg) && KeyOk(cfg, s, key) && id in s.jobs && Orderly(s, Move(id, f), key)
    ensures KeyOk(cfg, MoveJob(cfg, s, id, s.jobs[id], f), key)
  {
    if KeyOf(s.jobs[id]) == key {
      OwnMoves(cfg, s, id, f, key);
    } else {
      hide KeyOk, Untouched, FirstStep, SecondStep, Orderly;
      OtherMoves(cfg, s, id, f, key);
      var s' := MoveJob(cfg, s, id, s.jobs[id], f);
      assert forall other | other in s.jobs && other != id :: other in s'.jobs && s'.jobs[other] == s.jobs[other];
      assert forall other | other in s'.jobs && other != id :: other in s.jobs;
      UntouchedKey(cfg, s, s', key);
    }
  }

  lemma StepKeeps(cfg: Config, s: System, step: Step, key: Key)
    requires Ready(cfg) && KeyOk(cfg, s, key) && Orderly(s, step, key)
    ensures KeyOk(cfg, Next(cfg, s, step), key)
  {
    match step
    case Arrive(id, call, f) =>
      if id !in s.jobs {
        ArriveKeeps(cfg, s, id, call, f, key);
      }
    case Move(id, f) =>
      if id in s.jobs {
        MoveKeeps(cfg, s, id, f, key);
      }
  }

  /**
   Over every run with every fault, calls on different Capps overlapping at will: as long as the steps of calls on this
   Capp are orderly, it is consistent whenever none is busy unless, since its last sync or unsync that reached the remote,
   a caller was told that the backup or the label failed, an answer about Git was wrong, or a leftover hit its file.
   */
  lemma {:induction false} ConsistentUnlessTold(cfg: Config, s: System, steps: seq<Step>, key: Key)
    requires Ready(cfg) && KeyOk(cfg, s, key) && AlwaysOrderly(cfg, s, steps, key)
    ensures KeyOk(cfg, Run(cfg, s, steps), key)
    ensures Free(Run(cfg, s, steps), key) && FileOf(cfg, key) !in Run(cfg, s, steps).marked ==>
      Consistent(cfg, Run(cfg, s, steps).w, key)
  {
    hide Orderly, Next;
    if steps != [] {
      var front := steps[..|steps| - 1];
      ConsistentUnlessTold(cfg, s, front, key);
      StepKeeps(cfg, Run(cfg, s, front), steps[|steps| - 1], key);
    }
  }

  // ---- Marks and answers -----------------------------------------------------

  /** The answer a call gives with this step, if it is its last. */
  function Answer(cfg: Config, w: Stores, job: Job, f: Faults): Option<Response> {
    match job
    case Doing(plan) => var half := FirstStep(cfg, w, plan, f).1; if half.Ended? then Some(half.response) else None
    case Finishing(rest) => Some(SecondStep(cfg, w, rest, f).1)
  }

  /**
   The files a caller was last told about: an answer with a warning or a failed sync or unsync adds the file, and a sync or
   unsync that Git acknowledged takes it out again.
   */
  function Told(cfg: Config, s: System, steps: seq<Step>): set<RelPath> {
    if steps == [] then s.marked
    else
      var front, step := steps[..|steps| - 1], steps[|steps| - 1];
      var e := Run(cfg, s, front);
      if step.Move? && step.id in e.jobs then
        ToldBy(cfg, Told(cfg, s, front), e.jobs[step.id], Answer(cfg, e.w, e.jobs[step.id], step.f))
      else Told(cfg, s, front)
  }

  function ToldBy(cfg: Config, told: set<RelPath>, job: Job, answer: Option<Response>): set<RelPath> {
    var own := FileOf(cfg, KeyOf(job));
    match answer
    case None => if job.Doing? && job.plan.Syncing? then told - {own} else told
    case Some(r) => if r == Done(true) || r == Failed(GitopsFailed) || r == Failed(PatchFailed) then told + {own} else told
  }

  /** No push takes anything along and no success is false. */
  predicate Honest(steps: seq<Step>) {
    forall i | 0 <= i < |steps| && steps[i].Move? :: steps[i].f.git.carried == map[] && (steps[i].f.git.acked ==> steps[i].f.git.landed)
  }

  /** What a call of the client does when its clone is in sync. */
  ghost predicate OnCleanClone(git: Git) {
    exists c, remote, op, tip, world ::
      InSync(c) && Ancestor(c.tracking, remote) && Ancestor(remote, tip) && git == AsGit(c, remote, op, tip, world)
  }

  lemma CleanClonesAreHonest(steps: seq<Step>)
    requires forall i | 0 <= i < |steps| && steps[i].Move? :: OnCleanClone(steps[i].f.git)
    ensures Honest(steps)
  {
    hide AsGit, InSync, Ancestor;
    forall i | 0 <= i < |steps| && steps[i].Move?
      ensures steps[i].f.git.carried == map[] && (steps[i].f.git.acked ==> steps[i].f.git.landed)
    {
      var c, remote, op, tip, world :|
        InSync(c) && Ancestor(c.tracking, remote) && Ancestor(remote, tip) && steps[i].f.git == AsGit(c, remote, op, tip, world);
      CleanCallIsHonest(c, remote, op, tip, world);
    }
  }

  lemma MarkIsTold(cfg: Config, s: System, id: nat, f: Faults, told: set<RelPath>)
    requires id in s.jobs && s.marked <= told
    requires f.git.carried == map[] && (f.git.acked ==> f.git.landed)
    ensures MoveJob(cfg, s, id, s.jobs[id], f).marked <= ToldBy(cfg, told, s.jobs[id], Answer(cfg, s.w, s.jobs[id], f))
  {
    hide FileOf, Put, GitWrite;
  }

  lemma {:induction false} MarksAreTold(cfg: Config, s: System, steps: seq<Step>)
    requires Honest(steps)
    ensures Run(cfg, s, steps).marked <= Told(cfg, s, steps)
  {
    hide MoveJob, Read, ToldBy, Answer;
    if steps != [] {
      var front, step := steps[..|steps| - 1], steps[|steps| - 1];
      assert forall i | 0 <= i < |front| :: front[i] == steps[i];
      MarksAreTold(cfg, s, front);
      var e := Run(cfg, s, front);
      if step.Move? && step.id in e.jobs {
        assert steps[|steps| - 1].Move?;
        MarkIsTold(cfg, e, step.id, step.f, Told(cfg, s, front));
      }
    }
  }

  /**
   With Git answers that are honest, a Capp no call is busy on is consistent unless, since the last sync or unsync that Git
   acknowledged, some caller got a warning or an error.
   */
  lemma UntoldIsConsistent(cfg: Config, s: System, steps: seq<Step>, key: Key)
    requires Ready(cfg) && KeyOk(cfg, s, key) && AlwaysOrderly(cfg, s, steps, key) && Honest(steps)
    ensures var e := Run(cfg, s, steps); Free(e, key) && FileOf(cfg, key) !in Told(cfg, s, steps) ==> Consistent(cfg, e.w, key)
  {
    ConsistentUnlessTold(cfg, s, steps, key);
    MarksAreTold(cfg, s, steps);
  }
}
