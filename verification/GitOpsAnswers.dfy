/** What every call of the client answers, and what it leaves on the remote, from the state it starts in and what it meets. */
module GitOpsAnswers {
  import opened Prelude
  import opened GitOpsClient
  import F = GitOpsFleet

  /** The file at a path, if there is one. */
  function FileAt(tree: Tree, path: RelPath): Option<Bytes> {
    if path in tree then Some(tree[path]) else None
  }

  /** One tree has the file as given, and all others as the other tree. */
  predicate DiffersAt(path: RelPath, content: Option<Bytes>, tree: Tree, before: Tree) {
    FileAt(tree, path) == content && forall p | p in tree.Keys + before.Keys && p != path :: FileAt(tree, p) == FileAt(before, p)
  }

  /** Writing and removing are about one file, below the prefix, named by cluster, namespace and Capp. */
  lemma OpsNameTheFile(pathPrefix: string, gitOpsPath: string, namespace: string, cappName: string, valuesYAML: Bytes)
    requires Plain(gitOpsPath) && Plain(namespace) && Plain(cappName)
    ensures var write, remove := SyncOp(pathPrefix, gitOpsPath, namespace, cappName, valuesYAML), DeleteOp(pathPrefix, gitOpsPath, namespace, cappName);
      && write.path == remove.path == Clean([], Segments(pathPrefix)) + [gitOpsPath, namespace, cappName + ".yaml"]
      && write.content == Some(valuesYAML) && remove.content == None
  {
    RelPathShape(pathPrefix, gitOpsPath, namespace, cappName);
  }

  // ---- On any clone ----------------------------------------------------------

  /** The pull finds nothing new, or fast-forwards without having to overwrite unstaged changes it may not. */
  predicate PullWorks(c: Clone, remote: Commit, w: World) {
    w.pullOk && (UpToDate(c, remote) || (Ancestor(c.head, remote) && (w.overwrites || !Unstaged(c))))
  }

  /** What is on disk at a path once the pull has worked: an untracked file may stay where the new head has none. */
  function OnDisk(c: Clone, remote: Commit, path: RelPath, w: World): Option<Bytes> {
    if UpToDate(c, remote) then FileAt(c.worktree, path)
    else if path in remote.tree then Some(remote.tree[path])
    else if path in c.index || w.sweeps then None
    else FileAt(c.worktree, path)
  }

  /** What is staged once the pull has worked. */
  function Staged(c: Clone, remote: Commit): Tree {
    if UpToDate(c, remote) then c.index else remote.tree
  }

  function HeadOf(c: Clone, remote: Commit): Commit {
    if UpToDate(c, remote) then c.head else remote
  }

  /** Every local step works on something to commit: a removal needs a file that is staged. */
  predicate CommitWorks(c: Clone, remote: Commit, op: Op, w: World) {
    && w.local.Works? && (op.content.Some? || op.path in Staged(c, remote))
    && !DiffersAt(op.path, op.content, HeadOf(c, remote).tree, Staged(c, remote))
  }

  lemma DiffersIsEffect(op: Op, tree: Tree, before: Tree)
    ensures DiffersAt(op.path, op.content, tree, before) <==> tree == Effect(op, before)
  {
    if DiffersAt(op.path, op.content, tree, before) {
      var e := Effect(op, before);
      forall p
        ensures FileAt(tree, p) == FileAt(e, p)
      {
        if p != op.path && p !in tree.Keys + before.Keys {
          assert p !in e;
        }
      }
      SameFiles(tree, e);
    }
  }

  lemma SameFiles(a: Tree, b: Tree)
    requires forall p :: FileAt(a, p) == FileAt(b, p)
    ensures a == b
  {
    forall p
      ensures p in a <==> p in b
      ensures p in a ==> a[p] == b[p]
    {
      assert FileAt(a, p) == FileAt(b, p);
    }
  }

  lemma PullLeaves(c: Clone, remote: Commit, path: RelPath, w: World)
    requires w.pullOk
    ensures var (ok, c1) := Pull(c, remote, w);
      && (ok <==> PullWorks(c, remote, w))
      && (ok ==> c1.head == HeadOf(c, remote) && c1.tracking == remote && c1.index == Staged(c, remote)
                 && FileAt(c1.worktree, path) == OnDisk(c, remote, path, w))
  {
  }

  /** Whatever state the clone is in: when the call ends before its push, and with what. */
  lemma EarlyEndExactly(c: Clone, remote: Commit, op: Op, tip: Commit, w: World)
    ensures var (outcome, _, remote') := Call(c, remote, op, tip, w);
      var works, there := PullWorks(c, remote, w), OnDisk(c, remote, op.path, w) == op.content;
      && (outcome.PullFailed? <==> !works)
      && (outcome.Unchanged? <==> works && there)
      && (outcome.LocalFailed? <==> works && !there && !CommitWorks(c, remote, op, w))
      && (outcome.Unchanged? ==> outcome.hash == HeadOf(c, remote))
      && (outcome.PullFailed? || outcome.Unchanged? || outcome.LocalFailed? ==> remote' == remote)
  {
    hide Pull, DiffersAt, UpToDate, Ancestor, Push, Lands;
    if w.pullOk {
      PullLeaves(c, remote, op.path, w);
      DiffersIsEffect(op, HeadOf(c, remote).tree, Staged(c, remote));
    }
  }

  /** The commit of a call that gets that far: what was staged, with the change. */
  lemma CommitOf(c: Clone, remote: Commit, op: Op, w: World) returns (made: Commit)
    requires PullWorks(c, remote, w) && OnDisk(c, remote, op.path, w) != op.content && CommitWorks(c, remote, op, w)
    ensures made.Child? && made.parent == HeadOf(c, remote) && made.message == op.message && made.when == w.when
    ensures DiffersAt(op.path, op.content, made.tree, Staged(c, remote))
    ensures Begin(c, remote, op, w).0.None? && Begin(c, remote, op, w).1.head == made
  {
    hide Pull, DiffersAt, UpToDate, Ancestor;
    PullLeaves(c, remote, op.path, w);
    DiffersIsEffect(op, HeadOf(c, remote).tree, Staged(c, remote));
    made := Begin(c, remote, op, w).1.head;
    DiffersIsEffect(op, made.tree, Staged(c, remote));
  }

  /**
   Whatever state the clone is in: a call that commits lands, on a remote that others left at tip, exactly when its commit
   descends from tip and the push is not dropped; it is told so exactly when the answer is not lost either.
   */
  lemma PushExactly(c: Clone, remote: Commit, op: Op, tip: Commit, w: World) returns (made: Commit)
    requires PullWorks(c, remote, w) && OnDisk(c, remote, op.path, w) != op.content && CommitWorks(c, remote, op, w)
    ensures made.Child? && made.parent == HeadOf(c, remote) && made.message == op.message && made.when == w.when
    ensures DiffersAt(op.path, op.content, made.tree, Staged(c, remote))
    ensures var (outcome, _, remote') := Call(c, remote, op, tip, w);
      var lands := w.net != Dropped && Ancestor(tip, made) && tip != made;
      && outcome == (if !lands then Rejected else if w.net == Delivered then Pushed(made) else Unacknowledged(made))
      && remote' == if lands then made else tip
  {
    hide Begin, PullWorks, CommitWorks, OnDisk, DiffersAt, Ancestor;
    made := CommitOf(c, remote, op, w);
  }

  // ---- On a clean clone --------------------------------------------------------

  /**
   A call on a clean clone: which of the six answers it gives, from the branch, the faults it meets and whether others moved
   the branch, and what the branch then is.
   */
  lemma CleanAnswersExactly(c: Clone, remote: Commit, op: Op, tip: Commit, w: World)
    requires InSync(c) && Ancestor(c.tracking, remote) && Ancestor(remote, tip)
    ensures var (outcome, _, remote') := Call(c, remote, op, tip, w);
      var there := FileAt(remote.tree, op.path) == op.content;
      var commits := w.pullOk && !there && w.local.Works?;
      && (outcome.PullFailed? <==> !w.pullOk)
      && (outcome.Unchanged? <==> w.pullOk && there)
      && (outcome.LocalFailed? <==> w.pullOk && !there && !w.local.Works?)
      && (outcome.Pushed? <==> commits && w.net == Delivered && tip == remote)
      && (outcome.Unacknowledged? <==> commits && w.net == AnswerLost && tip == remote)
      && (outcome.Rejected? <==> commits && (w.net == Dropped || tip != remote))
      && (outcome.Unchanged? ==> outcome.hash == remote)
      && (outcome.Pushed? || outcome.Unacknowledged? ==>
            && outcome.hash == remote' && remote'.Child? && remote'.parent == remote
            && remote'.message == op.message && remote'.when == w.when
            && DiffersAt(op.path, op.content, remote'.tree, remote.tree))
      && (outcome.Rejected? ==> remote' == tip)
      && (outcome.PullFailed? || outcome.Unchanged? || outcome.LocalFailed? ==> remote' == remote)
  {
    CleanIsSimple(c, remote, op, w);
    hide Call, PullWorks, OnDisk, CommitWorks, DiffersAt, HeadOf, Staged, Ancestor, InSync;
    EarlyEndExactly(c, remote, op, tip, w);
    if w.pullOk && FileAt(remote.tree, op.path) != op.content && w.local.Works? {
      var made := PushExactly(c, remote, op, tip, w);
      OnlyOnUnmoved(remote, tip, made);
    }
  }

  lemma CleanIsSimple(c: Clone, remote: Commit, op: Op, w: World)
    requires InSync(c) && Ancestor(c.tracking, remote)
    ensures PullWorks(c, remote, w) <==> w.pullOk
    ensures HeadOf(c, remote) == remote && Staged(c, remote) == remote.tree
    ensures OnDisk(c, remote, op.path, w) == FileAt(remote.tree, op.path)
    ensures FileAt(remote.tree, op.path) != op.content ==> (CommitWorks(c, remote, op, w) <==> w.local.Works?)
  {
    if UpToDate(c, remote) {
      assert c.head == remote;
    }
    if op.content.None? && FileAt(remote.tree, op.path) != op.content {
      assert op.path in remote.tree;
    }
  }

  /** A child of the pulled commit descends from a later one only if that is the pulled commit itself. */
  lemma OnlyOnUnmoved(remote: Commit, tip: Commit, made: Commit)
    requires made.Child? && made.parent == remote && Ancestor(remote, tip)
    ensures Ancestor(tip, made) && tip != made <==> tip == remote
  {
    AncestorBelow(made, remote);
    if Ancestor(tip, made) && tip != made {
      AncestorHeight(tip, remote);
      AncestorHeight(remote, tip);
    }
  }
}
