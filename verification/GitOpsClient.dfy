/**
 The GitOps client: a local clone that is pulled, written, committed and pushed,
 and a fleet of such clones that share one remote branch.

 A commit hash is collision free, so a commit stands for its own hash: it fixes its
 whole ancestry. Between the pull and the push of one call any other replica may move
 the remote branch.
 */
module GitOpsClient {
  import opened Prelude

  newtype byte = x: int | 0 <= x < 256
  type Bytes = seq<byte>
  type RelPath = seq<string>
  type Tree = map<RelPath, Bytes>

  datatype Commit =
    | Root(tree: Tree)
    | Child(parent: Commit, tree: Tree, message: string, when: nat)

  /** One change of one values file: Some(bytes) writes it, None removes it. */
  datatype Op = Op(path: RelPath, content: Option<Bytes>, message: string)

  // ---- Paths ---------------------------------------------------------------

  /** The segments of a slash-separated path. */
  function Segments(s: string): (segments: seq<string>)
    ensures segments != []
  {
    if s == "" then [""]
    else
      var rest := Segments(s[1..]);
      if s[0] == '/' then [""] + rest else [[s[0]] + rest[0]] + rest[1..]
  }

  /** Lexical cleaning of a relative path: empty and "." segments vanish, ".." removes its parent. */
  function Clean(done: RelPath, segments: seq<string>): RelPath
    decreases |segments|
  {
    if segments == [] then done
    else
      var s, rest := segments[0], segments[1..];
      if s == "" || s == "." then Clean(done, rest)
      else if s == ".." && done != [] && done[|done| - 1] != ".." then Clean(done[..|done| - 1], rest)
      else Clean(done + [s], rest)
  }

  /** <pathPrefix>/<gitOpsPath>/<namespace>/<cappName>.yaml, joined and cleaned. */
  function BuildRelPath(pathPrefix: string, gitOpsPath: string, namespace: string, cappName: string): RelPath {
    Clean([], Segments(pathPrefix) + Segments(gitOpsPath) + Segments(namespace) + Segments(cappName + ".yaml"))
  }

  /** A single path segment, such as every Kubernetes object name is. */
  predicate Plain(name: string) {
    name != "" && name != "." && name != ".." && '/' !in name
  }

  lemma {:induction false} SegmentsOfPlain(s: string)
    requires '/' !in s
    ensures Segments(s) == [s]
  {
    if s != "" {
      SegmentsOfPlain(s[1..]);
      assert s == [s[0]] + s[1..];
    }
  }

  lemma {:induction false} CleanAppend(done: RelPath, front: seq<string>, back: seq<string>)
    ensures Clean(done, front + back) == Clean(Clean(done, front), back)
    decreases |front|
  {
    if front == [] {
      assert front + back == back;
    } else {
      var s := front[0];
      assert (front + back)[0] == s && (front + back)[1..] == front[1..] + back;
      if s == "" || s == "." {
        CleanAppend(done, front[1..], back);
      } else if s == ".." && done != [] && done[|done| - 1] != ".." {
        CleanAppend(done[..|done| - 1], front[1..], back);
      } else {
        CleanAppend(done + [s], front[1..], back);
      }
    }
  }

  /** No segment is empty or ".", and ".." only leads up from where the path starts. */
  predicate IsClean(path: RelPath) {
    && (forall i | 0 <= i < |path| :: path[i] != "" && path[i] != ".")
    && (forall i, j | 0 <= i < j < |path| && path[j] == ".." :: path[i] == "..")
  }

  /** Cleaning gives a clean path, and leaves one that is clean as it is. */
  lemma {:induction false} CleanExactly(done: RelPath, segments: seq<string>)
    requires IsClean(done)
    ensures IsClean(Clean(done, segments))
    ensures IsClean(done + segments) ==> Clean(done, segments) == done + segments
    decreases |segments|
  {
    if segments != [] {
      var s, rest := segments[0], segments[1..];
      assert done + segments == done + [s] + rest;
      if s == "" || s == "." {
        assert (done + segments)[|done|] == s;
        CleanExactly(done, rest);
      } else if s == ".." && done != [] && done[|done| - 1] != ".." {
        assert (done + segments)[|done|] == ".." && (done + segments)[|done| - 1] != "..";
        CleanExactly(done[..|done| - 1], rest);
      } else {
        CleanExactly(done + [s], rest);
      }
    }
  }

  /** The path ends in the three names, below the cleaned prefix, whatever the prefix is. */
  lemma RelPathShape(pathPrefix: string, gitOpsPath: string, namespace: string, cappName: string)
    requires Plain(gitOpsPath) && Plain(namespace) && Plain(cappName)
    ensures BuildRelPath(pathPrefix, gitOpsPath, namespace, cappName)
         == Clean([], Segments(pathPrefix)) + [gitOpsPath, namespace, cappName + ".yaml"]
  {
    var file := cappName + ".yaml";
    SegmentsOfPlain(gitOpsPath);
    SegmentsOfPlain(namespace);
    SegmentsOfPlain(file);
    var prefix := Segments(pathPrefix);
    var names := [gitOpsPath, namespace, file];
    assert prefix + [gitOpsPath] + [namespace] + [file] == prefix + names;
    CleanAppend([], prefix, names);
    var top := Clean([], prefix);
    assert file[|file| - 1] == 'l';
    assert names[1..] == [namespace, file] && names[1..][1..] == [file];
    assert Clean(top, names) == Clean(top + [gitOpsPath], [namespace, file])
        == Clean(top + [gitOpsPath] + [namespace], [file])
        == Clean(top + [gitOpsPath] + [namespace] + [file], []);
    assert top + [gitOpsPath] + [namespace] + [file] == top + names;
  }

  /** Two different Capps never share a values file. */
  lemma RelPathInjective(pathPrefix: string, g1: string, n1: string, c1: string, g2: string, n2: string, c2: string)
    requires Plain(g1) && Plain(n1) && Plain(c1) && Plain(g2) && Plain(n2) && Plain(c2)
    requires BuildRelPath(pathPrefix, g1, n1, c1) == BuildRelPath(pathPrefix, g2, n2, c2)
    ensures g1 == g2 && n1 == n2 && c1 == c2
  {
    RelPathShape(pathPrefix, g1, n1, c1);
    RelPathShape(pathPrefix, g2, n2, c2);
    var k := |Clean([], Segments(pathPrefix))|;
    var p1, p2 := BuildRelPath(pathPrefix, g1, n1, c1), BuildRelPath(pathPrefix, g2, n2, c2);
    assert p1[k] == g1 && p1[k + 1] == n1 && p1[k + 2] == c1 + ".yaml";
    assert p2[k] == g2 && p2[k + 1] == n2 && p2[k + 2] == c2 + ".yaml";
    assert (c1 + ".yaml")[..|c1|] == c1 && (c2 + ".yaml")[..|c2|] == c2;
  }

  // ---- Commits and changes -------------------------------------------------

  /** The tree with the file as given, or without it. */
  function Leave(path: RelPath, left: Option<Bytes>, tree: Tree): Tree {
    if left.Some? then tree[path := left.value] else tree - {path}
  }

  function Effect(op: Op, tree: Tree): Tree {
    Leave(op.path, op.content, tree)
  }

  /** The tree already is what the change asks for. */
  predicate Holds(op: Op, tree: Tree) {
    if op.content.Some? then op.path in tree && tree[op.path] == op.content.value else op.path !in tree
  }

  predicate Ancestor(older: Commit, newer: Commit) {
    older == newer || (newer.Child? && Ancestor(older, newer.parent))
  }

  /** The commits of newer that are not in older, oldest first. */
  function Since(older: Commit, newer: Commit): seq<Commit>
    requires Ancestor(older, newer)
  {
    if older == newer then [] else Since(older, newer.parent) + [newer]
  }

  lemma {:induction false} AncestorTransitive(a: Commit, b: Commit, c: Commit)
    requires Ancestor(a, b) && Ancestor(b, c)
    ensures Ancestor(a, c)
    ensures Since(a, c) == Since(a, b) + Since(b, c)
    decreases c
  {
    if b != c {
      AncestorTransitive(a, b, c.parent);
      if a == c {
        AncestorBelow(c, c.parent);
      }
    }
  }

  function Height(c: Commit): nat {
    if c.Root? then 0 else 1 + Height(c.parent)
  }

  lemma {:induction false} AncestorHeight(a: Commit, b: Commit)
    requires Ancestor(a, b)
    ensures Height(a) <= Height(b)
    ensures Height(a) == Height(b) ==> a == b
  {
    if a != b {
      AncestorHeight(a, b.parent);
    }
  }

  /** No commit descends from its own child. */
  lemma AncestorBelow(a: Commit, b: Commit)
    requires a.Child? && b == a.parent
    ensures !Ancestor(a, b)
  {
    if Ancestor(a, b) {
      AncestorHeight(a, b);
    }
  }

  // ---- One clone -----------------------------------------------------------

  /** HEAD, the remote-tracking ref, what is staged for the next commit, and the files on disk of one local clone. */
  datatype Clone = Clone(head: Commit, tracking: Commit, index: Tree, worktree: Tree)

  predicate InSync(c: Clone) {
    c.head == c.tracking && c.worktree == c.index == c.head.tree
  }

  /** What happens to a push on the wire: delivered, lost on the way, or landed with the answer lost. */
  datatype Network = Delivered | Dropped | AnswerLost

  /**
   Writing or removing the file, staging it and committing. A step that fails before the file is staged may leave
   anything at the path on disk; one that fails after it leaves the change staged. Nothing cleans up.
   */
  datatype Local = Works | BeforeStaging(left: Option<Bytes>) | AfterStaging

  datatype Outcome =
    | PullFailed
    | Unchanged(hash: Commit)
    | LocalFailed
    | Pushed(hash: Commit)
    | Unacknowledged(hash: Commit)
    | Rejected

  /** What one call meets: faults, the choices of the Git library, the clock and the network. */
  datatype World = World(pullOk: bool, overwrites: bool, sweeps: bool, local: Local, when: nat, net: Network, resetOk: bool)

  /** The fetch brings nothing new and HEAD already contains the branch, perhaps with commits of its own on top. */
  predicate UpToDate(c: Clone, remote: Commit) {
    c.tracking == remote && Ancestor(remote, c.head)
  }

  /** Some staged or committed file is different on disk, or missing there. */
  predicate Unstaged(c: Clone) {
    exists p | p in c.index :: p !in c.worktree || c.worktree[p] != c.index[p]
  }

  /** The files on disk that the index does not know. */
  function Untracked(c: Clone): Tree {
    map p | p in c.worktree && p !in c.index :: c.worktree[p]
  }

  /** HEAD, index and files become those of a commit. Untracked files stay unless they are in the way or get swept. */
  function Checkout(c: Clone, target: Commit, sweeps: bool): Clone {
    Clone(target, target, target.tree, if sweeps || c.worktree.Keys <= c.index.Keys then target.tree else Untracked(c) + target.tree)
  }

  /**
   Fetch the branch and fast-forward to it. The fetch always moves the tracking ref; a HEAD that is not an
   ancestor of the fetched commit is left alone and reported. Unstaged changes are overwritten, or HEAD moves
   without index and files and the pull is reported as failed.
   */
  function Pull(c: Clone, remote: Commit, w: World): (bool, Clone) {
    if UpToDate(c, remote) then (true, c)
    else if !Ancestor(c.head, remote) then (false, c.(tracking := remote))
    else if Unstaged(c) && !w.overwrites then (false, c.(head := remote, tracking := remote))
    else (true, Checkout(c, remote, w.sweeps))
  }

  /** Write or remove the file and stage that. The removal of a file that the index does not know cannot be staged. */
  function Stage(c: Clone, op: Op): (bool, Clone) {
    var c1 := c.(worktree := Effect(op, c.worktree));
    if op.content.None? && op.path !in c.index then (false, c1) else (true, c1.(index := Effect(op, c.index)))
  }

  /** The refspec has no '+': the remote takes the commit only as a strict fast-forward. */
  predicate Lands(c: Clone, remote: Commit, net: Network) {
    net != Dropped && Ancestor(remote, c.head) && remote != c.head
  }

  function Push(c: Clone, remote: Commit, net: Network): (bool, Clone, Commit) {
    if !Lands(c, remote, net) then (false, c, remote)
    else if net == Delivered then (true, c.(tracking := c.head), c.head)
    else (false, c, c.head)
  }

  /** The local part of a call: Some(outcome) when it fails, a commit of the index otherwise. An empty commit is refused. */
  function Change(c: Clone, op: Op, w: World): (Option<Outcome>, Clone) {
    if w.local.BeforeStaging? then (Some(LocalFailed), c.(worktree := Leave(op.path, w.local.left, c.worktree)))
    else
      var (staged, c1) := Stage(c, op);
      if !staged || w.local.AfterStaging? || c1.index == c1.head.tree then (Some(LocalFailed), c1)
      else (None, c1.(head := Child(c1.head, c1.index, op.message, w.when)))
  }

  /** First half of a call, up to the push: Some(outcome) when the call ends here. */
  function Begin(c: Clone, remote: Commit, op: Op, w: World): (Option<Outcome>, Clone) {
    if !w.pullOk then (Some(PullFailed), c)
    else
      var (pulled, c1) := Pull(c, remote, w);
      if !pulled then (Some(PullFailed), c1)
      else if Holds(op, c1.worktree) then (Some(Unchanged(c1.head)), c1)
      else Change(c1, op, w)
  }

  /** Second half: push, and reset to the tracking ref when the push failed. */
  function Finish(c: Clone, remote: Commit, w: World): (Outcome, Clone, Commit) {
    var (pushed, c1, remote1) := Push(c, remote, w.net);
    if pushed then (Pushed(c.head), c1, remote1)
    else
      (if Lands(c, remote, w.net) then Unacknowledged(c.head) else Rejected,
       if w.resetOk then Checkout(c1, c1.tracking, w.sweeps) else c1,
       remote1)
  }

  /** One whole call: what SyncValues and DeleteValues do to the clone and the remote branch, which others leave at tip before the push. */
  function Call(c: Clone, remote: Commit, op: Op, tip: Commit, w: World): (Outcome, Clone, Commit) {
    var (ended, c1) := Begin(c, remote, op, w);
    if ended.Some? then (ended.value, c1, remote)
    else Finish(c1, tip, w)
  }

  // ---- The client ----------------------------------------------------------

  class Remote {
    var tip: Commit
    constructor (tip: Commit)
      ensures this.tip == tip
    {
      this.tip := tip;
    }
  }

  class Client {
    const pathPrefix: string
    var head: Commit
    var tracking: Commit
    var index: Tree
    var worktree: Tree

    function View(): Clone
      reads this
    {
      Clone(head, tracking, index, worktree)
    }

    /** A fresh clone of the branch. */
    constructor (remote: Remote, pathPrefix: string)
      ensures this.pathPrefix == pathPrefix
      ensures InSync(View()) && tracking == remote.tip
    {
      this.pathPrefix := pathPrefix;
      head, tracking, index, worktree := remote.tip, remote.tip, remote.tip.tree, remote.tip.tree;
    }

    method PullCtx(remote: Remote, w: World) returns (ok: bool)
      modifies this
      ensures !w.pullOk ==> !ok && View() == old(View())
      ensures w.pullOk ==> (ok, View()) == Pull(old(View()), remote.tip, w)
    {
      if !w.pullOk {
        return false;
      }
      var updated := tracking != remote.tip;
      tracking := remote.tip;
      if !updated && Ancestor(tracking, head) {
        return true;
      }
      if !Ancestor(head, tracking) {
        return false;
      }
      if Unstaged(View()) && !w.overwrites {
        head := tracking;
        return false;
      }
      HardReset(w.sweeps);
      return true;
    }

    /** The reset of go-git to the tracking ref: HEAD, index and files. */
    method HardReset(sweeps: bool)
      modifies this
      ensures View() == Checkout(old(View()), old(tracking), sweeps)
    {
      var untracked := map p | p in worktree && p !in index :: worktree[p];
      var none := worktree.Keys <= index.Keys;
      head := tracking;
      index := head.tree;
      worktree := if sweeps || none then head.tree else untracked + head.tree;
    }

    method PushCtx(remote: Remote, net: Network) returns (ok: bool)
      modifies this, remote
      ensures (ok, View(), remote.tip) == Push(old(View()), old(remote.tip), net)
    {
      ok := false;
      if net != Dropped && remote.tip != head && Ancestor(remote.tip, head) {
        remote.tip := head;
        if net == Delivered {
          tracking := head;
          ok := true;
        }
      }
    }

    method ResetToRemote(w: World)
      modifies this
      ensures View() == if w.resetOk then Checkout(old(View()), old(tracking), w.sweeps) else old(View())
    {
      if w.resetOk {
        HardReset(w.sweeps);
      }
    }

    /** The tail both operations share: commit what is staged, push, and reset if the push failed. */
    method CommitAndPush(remote: Remote, message: string, tip: Commit, w: World) returns (r: Result<Commit, string>, ghost outcome: Outcome)
      modifies this, remote
      ensures var c := old(View());
        if w.local.AfterStaging? || c.index == c.head.tree then
          r == Err("commit") && outcome == LocalFailed && View() == c && remote.tip == old(remote.tip)
        else
          && (outcome, View(), remote.tip) == Finish(c.(head := Child(c.head, c.index, message, w.when)), tip, w)
          && r == if outcome.Pushed? then Ok(outcome.hash) else Err("push")
    {
      if w.local.AfterStaging? || index == head.tree {
        return Err("commit"), LocalFailed;
      }
      head := Child(head, index, message, w.when);
      ghost var committed := View();
      remote.tip := tip;
      var pushed := PushCtx(remote, w.net);
      if !pushed {
        ResetToRemote(w);
        outcome := if Lands(committed, tip, w.net) then Unacknowledged(committed.head) else Rejected;
        return Err("push"), outcome;
      }
      return Ok(head), Pushed(committed.head);
    }

    method SyncValues(remote: Remote, gitOpsPath: string, namespace: string, cappName: string, valuesYAML: Bytes, tip: Commit, w: World)
      returns (r: Result<Commit, string>, ghost outcome: Outcome)
      modifies this, remote
      ensures (outcome, View(), remote.tip)
           == Call(old(View()), old(remote.tip), SyncOp(pathPrefix, gitOpsPath, namespace, cappName, valuesYAML), tip, w)
      ensures r.Ok? <==> outcome.Unchanged? || outcome.Pushed?
      ensures r.Ok? ==> r.value == outcome.hash
    {
      var ok := PullCtx(remote, w);
      if !ok {
        return Err("pull"), PullFailed;
      }
      var relPath := BuildRelPath(pathPrefix, gitOpsPath, namespace, cappName);
      if relPath in worktree && worktree[relPath] == valuesYAML {
        return Ok(head), Unchanged(head);
      }
      if w.local.BeforeStaging? {
        worktree := Leave(relPath, w.local.left, worktree);
        return Err("write or stage"), LocalFailed;
      }
      worktree := worktree[relPath := valuesYAML];
      index := index[relPath := valuesYAML];
      r, outcome := CommitAndPush(remote, "sync " + gitOpsPath + "/" + namespace + "/" + cappName + ".yaml", tip, w);
    }

    method DeleteValues(remote: Remote, gitOpsPath: string, namespace: string, cappName: string, tip: Commit, w: World)
      returns (r: Result<Option<Commit>, string>, ghost outcome: Outcome)
      modifies this, remote
      ensures (outcome, View(), remote.tip)
           == Call(old(View()), old(remote.tip), DeleteOp(pathPrefix, gitOpsPath, namespace, cappName), tip, w)
      ensures r.Ok? <==> outcome.Unchanged? || outcome.Pushed?
      ensures r.Ok? ==> r.value == if outcome.Pushed? then Some(outcome.hash) else None
    {
      var ok := PullCtx(remote, w);
      if !ok {
        return Err("pull"), PullFailed;
      }
      var relPath := BuildRelPath(pathPrefix, gitOpsPath, namespace, cappName);
      if relPath !in worktree {
        return Ok(None), Unchanged(head);
      }
      if w.local.BeforeStaging? {
        worktree := Leave(relPath, w.local.left, worktree);
        return Err("remove or stage removal"), LocalFailed;
      }
      worktree := worktree - {relPath};
      if relPath !in index {
        return Err("stage removal"), LocalFailed;
      }
      index := index - {relPath};
      var hash: Result<Commit, string>;
      hash, outcome := CommitAndPush(remote, "remove " + gitOpsPath + "/" + namespace + "/" + cappName + ".yaml", tip, w);
      r := if hash.Ok? then Ok(Some(hash.value)) else Err(hash.error);
    }
  }

  function SyncOp(pathPrefix: string, gitOpsPath: string, namespace: string, cappName: string, valuesYAML: Bytes): Op {
    Op(BuildRelPath(pathPrefix, gitOpsPath, namespace, cappName), Some(valuesYAML),
       "sync " + gitOpsPath + "/" + namespace + "/" + cappName + ".yaml")
  }

  function DeleteOp(pathPrefix: string, gitOpsPath: string, namespace: string, cappName: string): Op {
    Op(BuildRelPath(pathPrefix, gitOpsPath, namespace, cappName), None,
       "remove " + gitOpsPath + "/" + namespace + "/" + cappName + ".yaml")
  }
}
