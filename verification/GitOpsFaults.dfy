/**
 Local steps that fail. A failed commit or a failed reset leaves the clone out of step with its
 tracking ref, because neither path cleans up.
 */
module GitOpsFaults {
  import opened Prelude
  import opened GitOpsClient
  import F = GitOpsFleet

  predicate SameAt(path: RelPath, a: Tree, b: Tree) {
    (path in a <==> path in b) && (path in a && path in b ==> a[path] == b[path])
  }

  /** The file lies on disk where neither the index nor the commit knows it. */
  predicate OnlyOnDisk(path: RelPath, c: Clone, commit: Commit) {
    path in c.worktree && path !in c.index && path !in commit.tree
  }

  /**
   When an unchanged call answers with a hash of the branch that has the file as asked. If its pull had nothing to do:
   when HEAD was the remote, and when the file on disk was the committed one. If it moved the clone: always on the
   branch, and with the file unless what was asked for was an untracked file that the new head does not have.
   */
  lemma ShortcutSoundExactly(c: Clone, remote: Commit, op: Op, tip: Commit, w: World)
    requires Call(c, remote, op, tip, w).0.Unchanged?
    ensures var hash := Call(c, remote, op, tip, w).0.hash;
      if UpToDate(c, remote) then
        && (Ancestor(hash, remote) <==> c.head == remote)
        && (Holds(op, hash.tree) <==> SameAt(op.path, c.worktree, c.head.tree))
      else
        && hash == remote
        && (Holds(op, hash.tree) <==> op.content.None? || !OnlyOnDisk(op.path, c, remote))
  {
    if UpToDate(c, remote) && Ancestor(c.head, remote) {
      AncestorHeight(c.head, remote);
      AncestorHeight(remote, c.head);
    }
  }

  // ---- One call on a clean clone --------------------------------------------

  lemma CleanPull(c: Clone, remote: Commit, w: World)
    requires InSync(c) && Ancestor(c.tracking, remote)
    ensures Pull(c, remote, w) == (true, Clone(remote, remote, remote.tree, remote.tree))
  {
  }

  lemma CleanAfterEarlyEnd(c: Clone, remote: Commit, op: Op, tip: Commit, w: World)
    requires InSync(c) && Ancestor(c.tracking, remote) && Begin(c, remote, op, w).0.Some?
    ensures var (outcome, c', _) := Call(c, remote, op, tip, w);
      && !outcome.Rejected? && !outcome.Unacknowledged?
      && (InSync(c') <==> outcome.LocalFailed? ==> w.local.BeforeStaging? && Leave(op.path, w.local.left, remote.tree) == remote.tree)
  {
    CleanPull(c, remote, w);
    F.EffectHolds(op, remote.tree);
  }

  lemma CleanAfterPush(c: Clone, remote: Commit, op: Op, tip: Commit, w: World)
    requires InSync(c) && Ancestor(c.tracking, remote) && Ancestor(remote, tip) && Begin(c, remote, op, w).0.None?
    ensures var (outcome, c', _) := Call(c, remote, op, tip, w);
      && !outcome.LocalFailed?
      && (InSync(c') <==> outcome.Rejected? || outcome.Unacknowledged? ==> w.resetOk)
  {
    CleanPull(c, remote, w);
    F.EffectHolds(op, remote.tree);
    var c2 := Begin(c, remote, op, w).1;
    assert c2.tracking == remote && c2.head.Child? && c2.head.parent == remote && c2.worktree == c2.index == c2.head.tree;
  }

  /** One call on a clean clone leaves it clean unless a failed local step staged the change or left another file, or the reset after a failed push failed. */
  lemma CleanUnlessLocalFault(c: Clone, remote: Commit, op: Op, tip: Commit, w: World)
    requires InSync(c) && Ancestor(c.tracking, remote) && Ancestor(remote, tip)
    ensures var (outcome, c', _) := Call(c, remote, op, tip, w);
      InSync(c') <==>
        && (outcome.LocalFailed? ==> w.local.BeforeStaging? && Leave(op.path, w.local.left, remote.tree) == remote.tree)
        && (outcome.Rejected? || outcome.Unacknowledged? ==> w.resetOk)
  {
    hide Begin, Finish, Call, InSync;
    if Begin(c, remote, op, w).0.Some? {
      CleanAfterEarlyEnd(c, remote, op, tip, w);
    } else {
      CleanAfterPush(c, remote, op, tip, w);
    }
  }

  // ---- After a failed write, stage or commit --------------------------------

  /** What is at the path on disk after a failed local step. */
  function LeftOnDisk(op: Op, local: Local): Option<Bytes>
    requires !local.Works?
  {
    if local.BeforeStaging? then local.left else op.content
  }

  /** The clone after a failed local step: HEAD and tracking ref at the remote, the change staged or not, and the file on disk. */
  lemma LocalFaultLeaves(c: Clone, remote: Commit, op: Op, tip: Commit, w: World) returns (c1: Clone)
    requires InSync(c) && Ancestor(c.tracking, remote) && Call(c, remote, op, tip, w).0.LocalFailed?
    ensures !w.local.Works? && !Holds(op, remote.tree) && c1 == Call(c, remote, op, tip, w).1
    ensures c1 == Clone(remote, remote, if w.local.AfterStaging? then Effect(op, remote.tree) else remote.tree,
                        Leave(op.path, LeftOnDisk(op, w.local), remote.tree))
  {
    CleanPull(c, remote, w);
    F.EffectHolds(op, remote.tree);
    c1 := Call(c, remote, op, tip, w).1;
  }

  lemma RetryOn(c: Clone, op: Op, staged: bool, left: Option<Bytes>, again: World)
    requires c.head == c.tracking && !Holds(op, c.head.tree) && again.pullOk && (staged ==> left == op.content)
    requires c.index == (if staged then Effect(op, c.head.tree) else c.head.tree) && c.worktree == Leave(op.path, left, c.head.tree)
    ensures var second := Call(c, c.head, op, c.head, again).0;
      && (second.Unchanged? <==> left == op.content)
      && (second.Unchanged? ==> second.hash == c.head)
      && (left != op.content && again.local.Works? && again.net == Delivered ==> second.Pushed?)
  {
    F.EffectHolds(op, c.head.tree);
    var committed := Child(c.head, Effect(op, c.head.tree), op.message, again.when);
    assert Ancestor(c.head, committed);
    AncestorBelow(committed, c.head);
  }

  /**
   A retry after a failed local step, with nothing new on the remote, reports success without a commit exactly
   when the failed step left the file on disk as asked; the remote then lacks it. Otherwise the retry can go through.
   */
  lemma RetryAfterLocalFault(c: Clone, remote: Commit, op: Op, tip: Commit, w: World, again: World)
    requires InSync(c) && Ancestor(c.tracking, remote)
    requires Call(c, remote, op, tip, w).0.LocalFailed? && again.pullOk
    ensures var c1 := Call(c, remote, op, tip, w).1;
      var second := Call(c1, remote, op, remote, again).0;
      && !w.local.Works?
      && (second.Unchanged? <==> LeftOnDisk(op, w.local) == op.content)
      && (second.Unchanged? ==> second.hash == remote && !Holds(op, remote.tree))
      && (LeftOnDisk(op, w.local) != op.content && again.local.Works? && again.net == Delivered ==> second.Pushed?)
  {
    var c1 := LocalFaultLeaves(c, remote, op, tip, w);
    RetryOn(c1, op, w.local.AfterStaging?, LeftOnDisk(op, w.local), again);
  }

  /**
   The same when the remote has moved on and a new file was written but not staged: the file survives the pull as
   untracked, and unless the remote has it by now the retry reports the new remote head, which lacks it, as success.
   */
  lemma RetryAfterMovedRemote(c: Clone, remote: Commit, op: Op, tip: Commit, w: World, later: Commit, again: World)
    requires InSync(c) && Ancestor(c.tracking, remote) && Ancestor(remote, later) && later != remote
    requires Call(c, remote, op, tip, w).0.LocalFailed? && again.pullOk
    requires op.content.Some? && op.path !in remote.tree && w.local == BeforeStaging(op.content)
    ensures var c1 := Call(c, remote, op, tip, w).1;
      var second := Call(c1, later, op, later, again).0;
      && (second.Unchanged? <==> Holds(op, later.tree) || (op.path !in later.tree && !again.sweeps))
      && (second.Unchanged? ==> second.hash == later)
  {
    var c1 := LocalFaultLeaves(c, remote, op, tip, w);
    assert !Unstaged(c1);
    assert op.path in c1.worktree && op.path !in c1.index;
  }

  /** The next call on another file takes the leftover along exactly if the failed step had staged it. */
  lemma LeftoverIsPushed(c: Clone, remote: Commit, op: Op, tip: Commit, w: World, other: Op, next: World)
    requires InSync(c) && Ancestor(c.tracking, remote) && Call(c, remote, op, tip, w).0.LocalFailed?
    requires other.path != op.path && !Holds(other, remote.tree) && next.pullOk && next.local.Works? && next.net == Delivered
    ensures var c1 := Call(c, remote, op, tip, w).1;
      var second := Call(c1, remote, other, remote, next).0;
      && second.Pushed?
      && second.hash.tree == Effect(other, if w.local.AfterStaging? then Effect(op, remote.tree) else remote.tree)
      && (F.ChangesOnePath(second.hash) <==> w.local.BeforeStaging?)
  {
    var c1 := LocalFaultLeaves(c, remote, op, tip, w);
    F.EffectHolds(op, remote.tree);
    var pushed := NextPush(c1, other, next);
    if w.local.AfterStaging? {
      TwoPaths(op, other, remote.tree);
    } else {
      F.EffectHolds(other, remote.tree);
      assert F.AlikeBut(other.path, pushed.tree, remote.tree);
    }
  }

  lemma NextPush(c: Clone, other: Op, w: World) returns (pushed: Commit)
    requires c.head == c.tracking && w.pullOk && w.local.Works? && w.net == Delivered
    requires !Holds(other, c.worktree) && !Holds(other, c.head.tree)
    requires SameAt(other.path, c.index, c.head.tree)
    ensures pushed.Child? && pushed.parent == c.head && pushed.tree == Effect(other, c.index)
    ensures Call(c, c.head, other, c.head, w).0 == Pushed(pushed)
  {
    F.EffectHolds(other, c.index);
    assert Holds(other, Effect(other, c.index));
    pushed := Child(c.head, Effect(other, c.index), other.message, w.when);
    assert Ancestor(c.head, pushed);
    AncestorBelow(pushed, c.head);
  }

  lemma TwoPaths(op: Op, other: Op, tree: Tree)
    requires other.path != op.path && !Holds(op, tree) && !Holds(other, tree)
    ensures forall path :: !F.AlikeBut(path, Effect(other, Effect(op, tree)), tree)
  {
    var both := Effect(other, Effect(op, tree));
    assert !SameAt(op.path, both, tree) && !SameAt(other.path, both, tree);
    forall path
      ensures !F.AlikeBut(path, both, tree)
    {
      var p := if path == op.path then other.path else op.path;
      assert SameAt(p, both - {path}, both) && SameAt(p, tree - {path}, tree);
    }
  }

  /**
   A pull that is refused over an unstaged change has moved HEAD but not the index. The next call then commits the old
   index: what others had pushed in between is undone everywhere but at its own file.
   */
  lemma RefusedPullUndoes(c: Clone, remote: Commit, w: World, other: Op, next: World)
    requires c.head == c.tracking && Ancestor(c.head, remote) && remote != c.head && Unstaged(c) && w.pullOk && !w.overwrites
    requires !Holds(other, c.worktree) && (other.content.None? ==> other.path in c.index) && Effect(other, c.index) != remote.tree
    requires next.pullOk && next.local.Works? && next.net == Delivered
    ensures var (ok, c1) := Pull(c, remote, w);
      && !ok
      && var (second, _, remote') := Call(c1, remote, other, remote, next);
         second == Pushed(remote') && remote'.parent == remote && remote'.tree == Effect(other, c.index)
  {
    var c1 := Pull(c, remote, w).1;
    assert c1 == Clone(remote, remote, c.index, c.worktree) by {
      if UpToDate(c, remote) {
        AncestorHeight(remote, c.head);
        AncestorHeight(c.head, remote);
      }
    }
    var pushed := Child(remote, Effect(other, c.index), other.message, next.when);
    assert Ancestor(remote, pushed);
    AncestorBelow(pushed, remote);
  }

  // ---- After a failed reset ------------------------------------------------

  /** The clone a rejected push leaves behind when its reset fails: one commit ahead of its tracking ref. */
  lemma StrayLeft(c: Clone, remote: Commit, op: Op, tip: Commit, w: World) returns (c1: Clone)
    requires InSync(c) && Ancestor(c.tracking, remote) && Ancestor(remote, tip)
    requires Call(c, remote, op, tip, w).0.Rejected? && !w.resetOk
    ensures c1 == Call(c, remote, op, tip, w).1
    ensures c1.tracking == remote && c1.head.Child? && c1.head.parent == remote
    ensures c1.worktree == c1.index == c1.head.tree && Holds(op, c1.head.tree)
  {
    CleanPull(c, remote, w);
    c1 := Call(c, remote, op, tip, w).1;
    F.EffectHolds(op, remote.tree);
  }

  /**
   After a failed push whose reset failed too: while the remote has not moved later pulls work and leave the clone
   as it is. Once the remote has moved, a pull works exactly when the remote contains the stray commit.
   */
  lemma AfterFailedReset(c: Clone, remote: Commit, op: Op, tip: Commit, w: World, later: Commit, again: World)
    requires InSync(c) && Ancestor(c.tracking, remote) && Ancestor(remote, tip)
    requires Call(c, remote, op, tip, w).0.Rejected? && !w.resetOk
    ensures var c1 := Call(c, remote, op, tip, w).1;
      && c1.head.Child? && c1.head.parent == remote && !Ancestor(c1.head, remote)
      && Pull(c1, remote, again) == (true, c1)
      && (later != remote ==> (Pull(c1, later, again).0 <==> Ancestor(c1.head, later)))
  {
    var c1 := StrayLeft(c, remote, op, tip, w);
    AncestorBelow(c1.head, remote);
    assert Ancestor(remote, c1.head) && !Unstaged(c1);
  }

  /** Meanwhile a retry reports the stray commit, which the remote does not have, as success, and the next other change takes it along. */
  lemma StrayCommitTravels(c: Clone, remote: Commit, op: Op, tip: Commit, w: World, again: World, other: Op)
    requires InSync(c) && Ancestor(c.tracking, remote) && Ancestor(remote, tip)
    requires Call(c, remote, op, tip, w).0.Rejected? && !w.resetOk && again.pullOk
    ensures var c1 := Call(c, remote, op, tip, w).1;
      && Call(c1, remote, op, remote, again).0 == Unchanged(c1.head) && !Ancestor(c1.head, remote)
      && (!Holds(other, c1.head.tree) && again.local.Works? && again.net == Delivered ==>
            var (second, _, remote') := Call(c1, remote, other, remote, again);
            second == Pushed(remote') && Ancestor(remote, remote') && Since(remote, remote') == [c1.head, remote'])
  {
    var c1 := StrayLeft(c, remote, op, tip, w);
    AncestorBelow(c1.head, remote);
    F.EffectHolds(other, c1.head.tree);
    var pushed := Child(c1.head, Effect(other, c1.head.tree), other.message, again.when);
    AncestorBelow(pushed, c1.head);
    assert Since(remote, remote) == [] && Since(remote, c1.head) == [c1.head];
    assert Ancestor(remote, c1.head) && Ancestor(remote, pushed);
  }
}

/** One call of the client seen from the remote tree, whatever state its clone is in. */
module GitOpsRemote {
  import opened Prelude
  import opened GitOpsClient
  import F = GitOpsFleet
  import opened GitOpsFaults

  /**
   What one call does to the remote tree: whether its change got there, whether it answered success, and where the
   tree it committed, before its own change, differs from the remote: staged leftovers and stray commits.
   */
  datatype Git = Git(landed: bool, acked: bool, carried: map<RelPath, Option<Bytes>>)

  /** A tree with other files laid over it. */
  function Carry(tree: Tree, carried: map<RelPath, Option<Bytes>>): Tree {
    map p | p in tree.Keys + carried.Keys && (p in carried ==> carried[p].Some?) :: if p in carried then carried[p].value else tree[p]
  }

  function GitEffect(g: Git, op: Op, tree: Tree): Tree {
    if g.landed then Effect(op, Carry(tree, g.carried)) else tree
  }

  /** How what is staged differs from a tree. */
  function Difference(staged: Tree, tree: Tree): map<RelPath, Option<Bytes>> {
    map p | p in staged.Keys + tree.Keys && !SameAt(p, staged, tree) :: if p in staged then Some(staged[p]) else None
  }

  lemma CarryDifference(staged: Tree, tree: Tree)
    ensures Carry(tree, Difference(staged, tree)) == staged
  {
  }

  lemma CarryNothing(tree: Tree)
    ensures Carry(tree, map[]) == tree
  {
  }

  /** One call of the client, seen from the remote tree. */
  function AsGit(c: Clone, remote: Commit, op: Op, tip: Commit, w: World): Git {
    match Call(c, remote, op, tip, w).0
    case Pushed(_) => Git(true, true, Difference(Pull(c, remote, w).1.index, tip.tree))
    case Unacknowledged(_) => Git(true, false, Difference(Pull(c, remote, w).1.index, tip.tree))
    case Unchanged(_) => Git(Holds(op, remote.tree), true, map[])
    case _ => Git(false, false, map[])
  }

  /** The remote as the call's last step found it. */
  function Found(c: Clone, remote: Commit, op: Op, tip: Commit, w: World): Commit {
    if Begin(c, remote, op, w).0.Some? then remote else tip
  }

  /** A call that gets to its push: the commit is the index with the change, and lands as a whole or not at all. */
  lemma PushedTree(c: Clone, remote: Commit, op: Op, tip: Commit, w: World) returns (staged: Tree, c2: Clone)
    requires Begin(c, remote, op, w).0.None?
    ensures c2 == Begin(c, remote, op, w).1 && staged == Pull(c, remote, w).1.index
    ensures c2.head.tree == Effect(op, staged)
    ensures var (outcome, _, remote') := Call(c, remote, op, tip, w);
      if Lands(c2, tip, w.net) then remote' == c2.head && outcome == (if w.net == Delivered then Pushed(c2.head) else Unacknowledged(c2.head))
      else remote' == tip && outcome == Rejected
  {
    c2, staged := Begin(c, remote, op, w).1, Pull(c, remote, w).1.index;
  }

  lemma EndedEarly(c: Clone, remote: Commit, op: Op, tip: Commit, w: World)
    requires Begin(c, remote, op, w).0.Some?
    ensures var (outcome, _, remote') := Call(c, remote, op, tip, w);
      remote' == remote && (outcome.PullFailed? || outcome.Unchanged? || outcome.LocalFailed?)
  {
  }

  /** Whatever state the clone is in, the call does to the remote tree what AsGit says. */
  lemma CallIsGit(c: Clone, remote: Commit, op: Op, tip: Commit, w: World)
    ensures var (outcome, _, remote') := Call(c, remote, op, tip, w);
      var g := AsGit(c, remote, op, tip, w);
      && (g.acked <==> outcome.Unchanged? || outcome.Pushed?)
      && remote'.tree == GitEffect(g, op, Found(c, remote, op, tip, w).tree)
  {
    if Begin(c, remote, op, w).0.Some? {
      EndedEarly(c, remote, op, tip, w);
      CarryNothing(remote.tree);
      F.EffectHolds(op, remote.tree);
    } else {
      var staged, _ := PushedTree(c, remote, op, tip, w);
      CarryDifference(staged, tip.tree);
    }
  }

  /** On a clean clone nothing is carried along and success means that the remote has the change. */
  lemma CleanCallIsHonest(c: Clone, remote: Commit, op: Op, tip: Commit, w: World)
    requires InSync(c) && Ancestor(c.tracking, remote) && Ancestor(remote, tip)
    ensures var g := AsGit(c, remote, op, tip, w); g.carried == map[] && (g.acked ==> g.landed)
  {
    CleanPull(c, remote, w);
    if Begin(c, remote, op, w).0.None? {
      var staged, c2 := PushedTree(c, remote, op, tip, w);
      CleanCommit(c, remote, op, w);
      F.LandsOnlyOnTracking(F.Replica(c2, Some(op)), tip, w.net);
      assert Difference(remote.tree, remote.tree) == map[];
    } else {
      EndedEarly(c, remote, op, tip, w);
    }
  }

  lemma CleanCommit(c: Clone, remote: Commit, op: Op, w: World)
    requires InSync(c) && Ancestor(c.tracking, remote) && Begin(c, remote, op, w).0.None?
    ensures var c2 := Begin(c, remote, op, w).1;
      c2.tracking == remote && forall tip | Ancestor(remote, tip) :: F.ReplicaOk(F.Replica(c2, Some(op)), tip)
  {
    CleanPull(c, remote, w);
    F.EffectHolds(op, remote.tree);
  }

  /**
   The file is on disk as asked although the remote lacks the change, and the pull leaves it there: because it has nothing
   to do, or because it moves the clone and the file is untracked.
   */
  predicate OnDiskAsAsked(c: Clone, remote: Commit, op: Op, w: World) {
    && Holds(op, c.worktree) && !Holds(op, remote.tree)
    && (UpToDate(c, remote)
        || (Ancestor(c.head, remote) && (Unstaged(c) ==> w.overwrites) && !w.sweeps && op.content.Some? && OnlyOnDisk(op.path, c, remote)))
  }

  /** A call answers success although the remote lacks the change exactly when it found the file on disk as asked. */
  lemma FalseSuccessExactly(c: Clone, remote: Commit, op: Op, tip: Commit, w: World)
    ensures var g := AsGit(c, remote, op, tip, w);
      g.acked && !g.landed <==> w.pullOk && OnDiskAsAsked(c, remote, op, w)
  {
  }

  /** A call that answers success has pulled, and one that does so falsely ended there. */
  lemma AckedPulled(c: Clone, remote: Commit, op: Op, tip: Commit, w: World)
    ensures var g := AsGit(c, remote, op, tip, w);
      && (g.acked ==> w.pullOk)
      && (g.acked && !g.landed ==> Found(c, remote, op, tip, w) == remote && !Holds(op, remote.tree))
  {
  }
}
