/**
 Any number of GitOps clients on one remote branch. A call is two atomic steps, the pull with
 the local commit and the push with the reset, and steps of different replicas interleave freely.
 */
module GitOpsFleet {
  import opened Prelude
  import opened GitOpsClient

  /** job is the committed but not yet pushed change of a call in progress; its replica holds the mutex. */
  datatype Replica = Replica(clone: Clone, job: Option<Op>)

  datatype Event = Event(op: Op, outcome: Outcome)

  /** log lists the finished calls, an unchanged one where its pull happened and any other where its push happened. */
  datatype Fleet = Fleet(remote: Commit, replicas: map<nat, Replica>, log: seq<Event>)

  datatype Step =
    | Join(r: nat)
    | Start(r: nat, op: Op, w: World)
    | End(r: nat, w: World)

  /** A step of a replica that is not ready for it leaves everything as it is. */
  function Next(s: Fleet, step: Step): Fleet {
    match step
    case Join(r) =>
      if r in s.replicas then s
      else s.(replicas := s.replicas[r := Replica(Clone(s.remote, s.remote, s.remote.tree, s.remote.tree), None)])
    case Start(r, op, w) =>
      if r !in s.replicas || s.replicas[r].job.Some? then s
      else
        var (ended, c) := Begin(s.replicas[r].clone, s.remote, op, w);
        if ended.Some? then
          Fleet(s.remote, s.replicas[r := Replica(c, None)], s.log + [Event(op, ended.value)])
        else
          Fleet(s.remote, s.replicas[r := Replica(c, Some(op))], s.log)
    case End(r, w) =>
      if r !in s.replicas || s.replicas[r].job.None? then s
      else
        var (outcome, c, remote) := Finish(s.replicas[r].clone, s.remote, w);
        Fleet(remote, s.replicas[r := Replica(c, None)], s.log + [Event(s.replicas[r].job.value, outcome)])
  }

  function Run(s: Fleet, steps: seq<Step>): Fleet {
    if steps == [] then s else Next(Run(s, steps[..|steps| - 1]), steps[|steps| - 1])
  }

  /** The local steps and the reset of this step work. Pulls and pushes may still fail. */
  predicate Sound(step: Step) {
    match step
    case Join(_) => true
    case Start(_, _, w) => w.local.Works?
    case End(_, w) => w.resetOk
  }

  predicate AllSound(steps: seq<Step>) {
    forall i | 0 <= i < |steps| :: Sound(steps[i])
  }

  predicate SoundAt(steps: seq<Step>, r: nat) {
    forall i | 0 <= i < |steps| && steps[i].r == r :: Sound(steps[i])
  }

  // ---- What a run promises -------------------------------------------------

  predicate Succeeded(e: Event) {
    e.outcome.Unchanged? || e.outcome.Pushed?
  }

  predicate Committed(e: Event) {
    e.outcome.Pushed? || e.outcome.Unacknowledged?
  }

  /** The change took effect: the call succeeded, or its commit landed and only the answer was lost. */
  predicate TookEffect(e: Event) {
    Succeeded(e) || e.outcome.Unacknowledged?
  }

  /** The tree after the changes that took effect, applied one after the other. */
  function Replay(tree: Tree, log: seq<Event>): Tree {
    if log == [] then tree
    else
      var before, e := Replay(tree, log[..|log| - 1]), log[|log| - 1];
      if TookEffect(e) then Effect(e.op, before) else before
  }

  /** The commits the log says landed on the remote, in order. */
  function Landed(log: seq<Event>): seq<Commit> {
    if log == [] then []
    else
      var e := log[|log| - 1];
      Landed(log[..|log| - 1]) + if Committed(e) then [e.outcome.hash] else []
  }

  /** Two trees differ in one file at most. */
  predicate AlikeBut(path: RelPath, a: Tree, b: Tree) {
    a - {path} == b - {path}
  }

  ghost predicate ChangesOnePath(c: Commit) {
    c.Child? && c.tree != c.parent.tree && exists path :: AlikeBut(path, c.tree, c.parent.tree)
  }

  /** The hash names a commit of the remote branch whose tree is as the call asked. */
  predicate HashIsRight(e: Event, remote: Commit) {
    TookEffect(e) ==> Ancestor(e.outcome.hash, remote) && Holds(e.op, e.outcome.hash.tree)
  }

  /** The two steps of a call that nothing comes between are the client's call, logged with its answer. */
  lemma StartEndIsCall(s: Fleet, r: nat, op: Op, w: World)
    requires r in s.replicas && s.replicas[r].job.None?
    ensures var (outcome, c, remote) := Call(s.replicas[r].clone, s.remote, op, s.remote, w);
      Next(Next(s, Start(r, op, w)), End(r, w)) == Fleet(remote, s.replicas[r := Replica(c, None)], s.log + [Event(op, outcome)])
  {
    hide Begin, Finish;
    var (ended, c) := Begin(s.replicas[r].clone, s.remote, op, w);
    if ended.None? {
      var done := Finish(c, s.remote, w).1;
      assert s.replicas[r := Replica(c, Some(op))][r := Replica(done, None)] == s.replicas[r := Replica(done, None)];
    } else {
      EndedStays(s.replicas[r].clone, s.remote, op, w);
    }
  }

  lemma EndedStays(c: Clone, remote: Commit, op: Op, w: World)
    requires Begin(c, remote, op, w).0.Some?
    ensures Call(c, remote, op, remote, w) == (Begin(c, remote, op, w).0.value, Begin(c, remote, op, w).1, remote)
  {
  }

  predicate Idle(r: Replica) {
    r.job.None?
  }

  ghost predicate ReplicaOk(r: Replica, remote: Commit) {
    && Ancestor(r.clone.tracking, remote)
    && if Idle(r) then InSync(r.clone)
       else
         && !Holds(r.job.value, r.clone.tracking.tree)
         && r.clone.head.Child? && r.clone.head.parent == r.clone.tracking
         && r.clone.head.tree == r.clone.index == r.clone.worktree == Effect(r.job.value, r.clone.tracking.tree)
  }

  ghost predicate LogOk(start: Commit, remote: Commit, log: seq<Event>) {
    && Ancestor(start, remote)
    && Since(start, remote) == Landed(log)
    && (forall c | c in Since(start, remote) :: ChangesOnePath(c))
    && remote.tree == Replay(start.tree, log)
    && (forall e | e in log :: HashIsRight(e, remote))
  }

  ghost predicate Initial(s: Fleet) {
    && s.log == []
    && forall r | r in s.replicas :: Idle(s.replicas[r]) && InSync(s.replicas[r].clone) && Ancestor(s.replicas[r].clone.tracking, s.remote)
  }

  lemma EffectHolds(op: Op, tree: Tree)
    ensures Holds(op, Effect(op, tree))
    ensures Holds(op, tree) <==> Effect(op, tree) == tree
    ensures AlikeBut(op.path, Effect(op, tree), tree)
  {
    if op.content.Some? && Effect(op, tree) == tree {
      assert op.path in Effect(op, tree);
    }
    if op.content.None? && Effect(op, tree) == tree {
      assert op.path !in Effect(op, tree);
    }
  }

  /** A commit that makes one change the branch still lacked. */
  predicate MakesChange(op: Op, remote: Commit, remote': Commit) {
    !Holds(op, remote.tree) && remote'.Child? && remote'.parent == remote && remote'.tree == Effect(op, remote.tree)
  }

  // ---- One replica ---------------------------------------------------------

  /** The push of a clean clone lands exactly when nobody moved the remote since its pull. */
  lemma LandsOnlyOnTracking(r: Replica, remote: Commit, net: Network)
    requires ReplicaOk(r, remote) && !Idle(r)
    ensures Lands(r.clone, remote, net) <==> net != Dropped && remote == r.clone.tracking
  {
    var tracking := r.clone.tracking;
    AncestorBelow(r.clone.head, tracking);
    if Ancestor(remote, r.clone.head) && remote != r.clone.head {
      AncestorHeight(remote, tracking);
      AncestorHeight(tracking, remote);
    }
  }

  lemma BeginOnClean(r: Replica, remote: Commit, op: Op, w: World)
    requires ReplicaOk(r, remote) && Idle(r) && w.local.Works?
    ensures var (ended, c') := Begin(r.clone, remote, op, w);
      && (ended.Some? ==> ReplicaOk(Replica(c', None), remote))
      && (ended.Some? ==> ended == Some(PullFailed) || (ended == Some(Unchanged(remote)) && Holds(op, remote.tree)))
      && (ended.None? ==> ReplicaOk(Replica(c', Some(op)), remote))
  {
    EffectHolds(op, remote.tree);
    if w.pullOk {
      var (pulled, c1) := Pull(r.clone, remote, w);
      assert pulled ==> c1 == Clone(remote, remote, remote.tree, remote.tree);
    }
  }

  lemma FinishOnClean(r: Replica, remote: Commit, w: World)
    requires ReplicaOk(r, remote) && !Idle(r) && w.resetOk
    ensures var (outcome, c', remote') := Finish(r.clone, remote, w);
      && ReplicaOk(Replica(c', None), remote')
      && Ancestor(remote, remote')
      && if Lands(r.clone, remote, w.net)
         then MakesChange(r.job.value, remote, remote') && (outcome == Pushed(remote') || outcome == Unacknowledged(remote'))
         else remote' == remote && outcome == Rejected
  {
    LandsOnlyOnTracking(r, remote, w.net);
    assert Ancestor(r.clone.tracking, r.clone.head);
  }

  /** A change lands without its caller being told exactly when the answer is lost and nobody moved the remote since the pull. */
  lemma LandsUntoldExactly(r: Replica, remote: Commit, w: World)
    requires ReplicaOk(r, remote) && !Idle(r)
    ensures var outcome := Finish(r.clone, remote, w).0;
      && (outcome.Unacknowledged? <==> w.net == AnswerLost && remote == r.clone.tracking)
      && (outcome.Pushed? <==> w.net == Delivered && remote == r.clone.tracking)
  {
    LandsOnlyOnTracking(r, remote, w.net);
  }

  /** A replica is not bothered by a remote that moves on. */
  lemma OthersMoveOn(r: Replica, remote: Commit, remote': Commit)
    requires ReplicaOk(r, remote) && Ancestor(remote, remote')
    ensures ReplicaOk(r, remote')
  {
    AncestorTransitive(r.clone.tracking, remote, remote');
  }

  /** Whatever fails, a step only extends the remote. */
  lemma RemoteGrows(s: Fleet, step: Step)
    ensures Ancestor(s.remote, Next(s, step).remote)
  {
  }

  /** A replica whose own step is sound stays in order, whatever the other replicas are in. */
  lemma OwnStep(s: Fleet, step: Step)
    requires Sound(step) && (step.r in s.replicas ==> ReplicaOk(s.replicas[step.r], s.remote))
    ensures var s' := Next(s, step); step.r in s'.replicas ==> ReplicaOk(s'.replicas[step.r], s'.remote)
  {
    if step.Start? && step.r in s.replicas && Idle(s.replicas[step.r]) {
      BeginOnClean(s.replicas[step.r], s.remote, step.op, step.w);
    }
    if step.End? && step.r in s.replicas && !Idle(s.replicas[step.r]) {
      FinishOnClean(s.replicas[step.r], s.remote, step.w);
    }
  }

  lemma OthersStep(s: Fleet, step: Step, q: nat)
    requires q != step.r
    ensures q in Next(s, step).replicas <==> q in s.replicas
    ensures q in s.replicas ==> Next(s, step).replicas[q] == s.replicas[q]
  {
  }

  /**
   Between calls a clone is exactly its tracking commit, through failed pulls and failed pushes, as long as its own
   local steps and resets work; what fails at other replicas does not matter.
   */
  lemma {:induction false} ClonesReturnToTracking(s: Fleet, steps: seq<Step>, r: nat)
    requires Initial(s) && SoundAt(steps, r)
    ensures r in Run(s, steps).replicas ==> ReplicaOk(Run(s, steps).replicas[r], Run(s, steps).remote)
  {
    if steps != [] {
      var front, step := steps[..|steps| - 1], steps[|steps| - 1];
      ClonesReturnToTracking(s, front, r);
      if step.r == r {
        OwnStep(Run(s, front), step);
      } else {
        OthersStep(Run(s, front), step, r);
        RemoteGrows(Run(s, front), step);
        if r in Run(s, front).replicas {
          OthersMoveOn(Run(s, front).replicas[r], Run(s, front).remote, Run(s, steps).remote);
        }
      }
    }
  }

  // ---- The log and the remote ----------------------------------------------

  lemma HashesStayRight(log: seq<Event>, remote: Commit, remote': Commit)
    requires (forall e | e in log :: HashIsRight(e, remote)) && Ancestor(remote, remote')
    ensures forall e | e in log :: HashIsRight(e, remote')
  {
    forall e | e in log
      ensures HashIsRight(e, remote')
    {
      if TookEffect(e) {
        AncestorTransitive(e.outcome.hash, remote, remote');
      }
    }
  }

  lemma LogAppend(log: seq<Event>, e: Event, tree: Tree)
    ensures Landed(log + [e]) == Landed(log) + if Committed(e) then [e.outcome.hash] else []
    ensures Replay(tree, log + [e]) == if TookEffect(e) then Effect(e.op, Replay(tree, log)) else Replay(tree, log)
  {
    assert (log + [e])[..|log|] == log;
  }

  lemma Grow(start: Commit, remote: Commit, log: seq<Event>, op: Op, e: Event, remote': Commit)
    requires LogOk(start, remote, log) && MakesChange(op, remote, remote')
    requires e == Event(op, Pushed(remote')) || e == Event(op, Unacknowledged(remote'))
    ensures LogOk(start, remote', log + [e])
  {
    EffectHolds(op, remote.tree);
    AncestorBelow(remote', remote);
    AncestorTransitive(start, remote, remote');
    assert Since(remote, remote') == [remote'];
    assert ChangesOnePath(remote');
    LogAppend(log, e, start.tree);
    HashesStayRight(log, remote, remote');
  }

  /** A call that ends before its push changed no tree, and what it answers is right. */
  lemma EarlyEnd(start: Commit, remote: Commit, log: seq<Event>, e: Event)
    requires LogOk(start, remote, log) && !Committed(e)
    requires TookEffect(e) ==> e.outcome == Unchanged(remote) && Holds(e.op, remote.tree)
    ensures LogOk(start, remote, log + [e])
  {
    LogAppend(log, e, start.tree);
    EffectHolds(e.op, remote.tree);
  }

  lemma LogStep(start: Commit, s: Fleet, step: Step)
    requires Sound(step) && LogOk(start, s.remote, s.log) && (step.r in s.replicas ==> ReplicaOk(s.replicas[step.r], s.remote))
    ensures LogOk(start, Next(s, step).remote, Next(s, step).log)
  {
    hide LogOk, ReplicaOk, Begin, Finish, Lands, MakesChange, Holds;
    if step.Start? && step.r in s.replicas && Idle(s.replicas[step.r]) {
      BeginOnClean(s.replicas[step.r], s.remote, step.op, step.w);
      var ended := Begin(s.replicas[step.r].clone, s.remote, step.op, step.w).0;
      if ended.Some? {
        EarlyEnd(start, s.remote, s.log, Event(step.op, ended.value));
      }
    }
    if step.End? && step.r in s.replicas && !Idle(s.replicas[step.r]) {
      var me := s.replicas[step.r];
      FinishOnClean(me, s.remote, step.w);
      var (outcome, _, remote') := Finish(me.clone, s.remote, step.w);
      if Lands(me.clone, s.remote, step.w.net) {
        Grow(start, s.remote, s.log, me.job.value, Event(me.job.value, outcome), remote');
      } else {
        EarlyEnd(start, s.remote, s.log, Event(me.job.value, outcome));
      }
    }
  }

  /**
   Over every run in which local steps and resets work: the remote only gains commits, exactly those of the calls
   whose push landed and in their order; each changes one path of its parent; the final tree is the sequential
   application of the changes that took effect; and every returned hash names a commit of the branch that has the file.
   */
  lemma {:induction false} FleetIsLinearizable(s: Fleet, steps: seq<Step>)
    requires Initial(s) && AllSound(steps)
    ensures LogOk(s.remote, Run(s, steps).remote, Run(s, steps).log)
  {
    if steps != [] {
      var front, step := steps[..|steps| - 1], steps[|steps| - 1];
      FleetIsLinearizable(s, front);
      ClonesReturnToTracking(s, front, step.r);
      LogStep(s.remote, Run(s, front), step);
    }
  }

  predicate NoAnswerLost(steps: seq<Step>) {
    forall i | 0 <= i < |steps| :: !(steps[i].End? && steps[i].w.net == AnswerLost)
  }

  /** When no push answer is lost, the changes that took effect are exactly those of the calls that returned success. */
  lemma {:induction false} EffectMeansSuccess(s: Fleet, steps: seq<Step>)
    requires Initial(s) && NoAnswerLost(steps)
    ensures forall e | e in Run(s, steps).log :: TookEffect(e) <==> Succeeded(e)
  {
    if steps != [] {
      EffectMeansSuccess(s, steps[..|steps| - 1]);
    }
  }

  /** The tree after the changes of the calls that returned success. */
  function ReplaySuccesses(tree: Tree, log: seq<Event>): Tree {
    if log == [] then tree
    else
      var before, e := ReplaySuccesses(tree, log[..|log| - 1]), log[|log| - 1];
      if Succeeded(e) then Effect(e.op, before) else before
  }

  lemma {:induction false} ReplaysAgree(tree: Tree, log: seq<Event>)
    requires forall e | e in log :: TookEffect(e) <==> Succeeded(e)
    ensures Replay(tree, log) == ReplaySuccesses(tree, log)
  {
    if log != [] {
      assert log[|log| - 1] in log;
      ReplaysAgree(tree, log[..|log| - 1]);
    }
  }

  /** When no push answer is lost, the final tree is the sequential application of exactly the successful calls. */
  lemma TreeIsSuccesses(s: Fleet, steps: seq<Step>)
    requires Initial(s) && AllSound(steps) && NoAnswerLost(steps)
    ensures Run(s, steps).remote.tree == ReplaySuccesses(s.remote.tree, Run(s, steps).log)
  {
    FleetIsLinearizable(s, steps);
    EffectMeansSuccess(s, steps);
    ReplaysAgree(s.remote.tree, Run(s, steps).log);
  }

  /** A lost answer is the one way a change lands although its caller was told it failed. */
  lemma AnswerLostExample(path: RelPath, w: World)
    requires w.pullOk && w.local.Works? && w.net == AnswerLost
    ensures var s := Fleet(Root(map[]), map[0 := Replica(Clone(Root(map[]), Root(map[]), map[], map[]), None)], []);
      var op := Op(path, Some([]), "sync");
      var e := Run(s, [Start(0, op, w), End(0, w)]);
      Initial(s) && path in e.remote.tree && |e.log| == 1 && !Succeeded(e.log[0])
  {
    var s := Fleet(Root(map[]), map[0 := Replica(Clone(Root(map[]), Root(map[]), map[], map[]), None)], []);
    var op := Op(path, Some([]), "sync");
    var a, b := Start(0, op, w), End(0, w);
    assert [a, b][..1] == [a] && [a][..0] == [];
    var s1 := Next(s, a);
    EffectHolds(op, map[]);
    assert Run(s, [a]) == Next(Run(s, []), a) == s1;
    LandsOnlyOnTracking(s1.replicas[0], s1.remote, AnswerLost);
    assert Run(s, [a, b]) == Next(s1, b);
  }

  // ---- Runs with every fault -----------------------------------------------

  /** What a pushed commit holds, and that it stays on the branch, whatever failed before. */
  ghost predicate PushesOk(s: Fleet) {
    && (forall e | e in s.log && Committed(e) :: HashIsRight(e, s.remote))
    && (forall r | r in s.replicas && !Idle(s.replicas[r]) :: Holds(s.replicas[r].job.value, s.replicas[r].clone.head.tree))
  }

  lemma CommitHolds(c: Clone, remote: Commit, op: Op, w: World)
    ensures var (ended, c') := Begin(c, remote, op, w);
      && (ended.None? ==> Holds(op, c'.head.tree))
      && (ended.Some? ==> !Committed(Event(op, ended.value)))
  {
    if w.pullOk {
      EffectHolds(op, Pull(c, remote, w).1.index);
    }
  }

  lemma StartIsTrue(s: Fleet, step: Step)
    requires PushesOk(s) && step.Start?
    ensures PushesOk(Next(s, step))
  {
    if step.r in s.replicas && Idle(s.replicas[step.r]) {
      CommitHolds(s.replicas[step.r].clone, s.remote, step.op, step.w);
    }
  }

  lemma EndIsTrue(s: Fleet, step: Step)
    requires PushesOk(s) && step.End?
    ensures PushesOk(Next(s, step))
  {
    var s' := Next(s, step);
    if step.r in s.replicas && !Idle(s.replicas[step.r]) {
      RemoteGrows(s, step);
      forall e | e in s'.log && Committed(e)
        ensures HashIsRight(e, s'.remote)
      {
        if e in s.log {
          AncestorTransitive(e.outcome.hash, s.remote, s'.remote);
        }
      }
    }
  }

  /** Over every run with every fault: a pushed commit holds what its call asked and stays on the branch. */
  lemma {:induction false} PushesStayTrue(s: Fleet, steps: seq<Step>)
    requires Initial(s)
    ensures PushesOk(Run(s, steps))
  {
    if steps != [] {
      var front, step := steps[..|steps| - 1], steps[|steps| - 1];
      PushesStayTrue(s, front);
      match step
      case Join(_) =>
      case Start(_, _, _) => StartIsTrue(Run(s, front), step);
      case End(_, _) => EndIsTrue(Run(s, front), step);
    }
  }

  /** Over every run with every fault: the remote of any later point descends from that of any earlier one. */
  lemma {:induction false} RemoteOnlyGrows(s: Fleet, before: seq<Step>, after: seq<Step>)
    ensures Ancestor(Run(s, before).remote, Run(s, before + after).remote)
    decreases |after|
  {
    if after == [] {
      assert before + after == before;
    } else {
      var shorter := after[..|after| - 1];
      assert (before + after)[..|before + after| - 1] == before + shorter;
      RemoteOnlyGrows(s, before, shorter);
      RemoteGrows(Run(s, before + shorter), after[|after| - 1]);
      AncestorTransitive(Run(s, before).remote, Run(s, before + shorter).remote, Run(s, before + after).remote);
    }
  }
}
