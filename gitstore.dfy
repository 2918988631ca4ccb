/**
 * The git repository the three tools drive, seen as a store of commits and
 * branch heads. A commit is the tree it records; a branch is a name bound
 * to a commit; HEAD is the current branch. Only the git operations the
 * tools run are modelled, each as the change it makes to this state.
 */
module GitStore {
  import opened Common
  import opened Digests

  /** A path relative to the top of the repository, for example "etc/pacman.conf". */
  type Path = string

  /** The content of a tracked file. */
  datatype Blob =
    | Content(digest: Digest)   // a file copied from /etc or extracted from a package
    | Text(text: string)        // a file the tools write themselves (timestamps, .gitignore)

  type Tree = map<Path, Blob>

  class GitRepo {
    var commits: seq<Tree>             // commit ids are indices into this sequence
    var heads: map<string, nat>        // branch name -> commit id
    var tags: map<string, nat>         // tag name -> commit id
    var curbranch: Option<string>      // the branch HEAD is on, as last checked out

    ghost predicate Valid()
      reads this
    {
      |commits| > 0
      && (forall b :: b in heads ==> heads[b] < |commits|)
      && (forall t :: t in tags ==> tags[t] < |commits|)
    }

    /** The tree at the head of a branch. */
    function TreeOf(b: string): Tree
      reads this
      requires Valid() && b in heads
    {
      commits[heads[b]]
    }

    predicate OnBranch()
      reads this
    {
      curbranch.Some? && curbranch.value in heads
    }

    /** `git init` followed by the first commit on master, holding `files`. */
    constructor Create(files: Tree)
      ensures Valid()
      ensures commits == [files] && heads == map["master" := 0] && tags == map[]
      ensures curbranch == Some("master")
    {
      commits := [files];
      heads := map["master" := 0];
      tags := map[];
      curbranch := Some("master");
    }

    /**
     * checkout(branch, create): `git checkout -b branch` starts a new branch
     * at the current one; a plain checkout of the current branch does nothing.
     */
    method Checkout(branch: string, create: bool)
      requires Valid()
      requires create ==> OnBranch() && branch !in heads
      requires !create ==> branch in heads || curbranch == Some(branch)
      modifies this
      ensures Valid()
      ensures create ==> heads == old(heads)[branch := old(heads[curbranch.value])]
      ensures !create ==> heads == old(heads)
      ensures commits == old(commits) && tags == old(tags)
      ensures curbranch == Some(branch)
    {
      if create {
        heads := heads[branch := heads[curbranch.value]];
      } else if curbranch == Some(branch) {
        return;
      }
      curbranch := Some(branch);
    }

    /** `git add files; git commit`: a new commit on the current branch. */
    method Commit(changes: Tree) returns (id: nat)
      requires Valid() && OnBranch()
      modifies this
      ensures Valid()
      ensures id == |old(commits)|
      ensures commits == old(commits) + [old(TreeOf(curbranch.value)) + changes]
      ensures heads == old(heads)[old(curbranch.value) := id]
      ensures tags == old(tags) && curbranch == old(curbranch)
    {
      id := |commits|;
      commits := commits + [TreeOf(curbranch.value) + changes];
      heads := heads[curbranch.value := id];
    }

    /** `git rm files; git commit`. */
    method Remove(files: set<Path>) returns (id: nat)
      requires Valid() && OnBranch()
      modifies this
      ensures Valid()
      ensures id == |old(commits)|
      ensures commits == old(commits) + [Without(old(TreeOf(curbranch.value)), files)]
      ensures heads == old(heads)[old(curbranch.value) := id]
      ensures tags == old(tags) && curbranch == old(curbranch)
    {
      id := |commits|;
      commits := commits + [Without(TreeOf(curbranch.value), files)];
      heads := heads[curbranch.value := id];
    }

    /**
     * A commit on the current branch whose tree git computed (the result of
     * a cherry-pick that applied cleanly).
     */
    method CommitTree(tree: Tree) returns (id: nat)
      requires Valid() && OnBranch()
      modifies this
      ensures Valid()
      ensures id == |old(commits)|
      ensures commits == old(commits) + [tree]
      ensures heads == old(heads)[old(curbranch.value) := id]
      ensures tags == old(tags) && curbranch == old(curbranch)
    {
      id := |commits|;
      commits := commits + [tree];
      heads := heads[curbranch.value := id];
    }

    /** `git branch -D branch`: git refuses to delete the current branch. */
    method DeleteBranch(branch: string)
      requires Valid() && branch in heads && curbranch != Some(branch)
      modifies this
      ensures Valid()
      ensures heads == old(heads) - {branch}
      ensures commits == old(commits) && tags == old(tags) && curbranch == old(curbranch)
    {
      heads := heads - {branch};
    }

    /**
     * `git merge src` on the current branch, as the fast-forward it is for
     * the branches the tools merge: the current branch moves to src's head.
     */
    method Merge(src: string)
      requires Valid() && OnBranch() && src in heads
      modifies this
      ensures Valid()
      ensures heads == old(heads)[old(curbranch.value) := old(heads[src])]
      ensures commits == old(commits) && tags == old(tags) && curbranch == old(curbranch)
    {
      heads := heads[curbranch.value := heads[src]];
    }

    /**
     * `git ls-tree -r --name-only branch`: the paths of the branch's tree,
     * each once (the order git prints them in is not modelled).
     */
    method LsTree(branch: string) returns (names: seq<Path>)
      requires Valid() && branch in heads
      ensures Distinct(names) && Elems(names) == TreeOf(branch).Keys
    {
      var left := TreeOf(branch).Keys;
      names := [];
      while left != {}
        invariant Distinct(names) && Elems(names) !! left
        invariant Elems(names) + left == TreeOf(branch).Keys
        decreases left
      {
        var p :| p in left;
        names := names + [p];
        left := left - {p};
      }
    }

    /**
     * Between the two states only the heads of `moved` may have moved:
     * no branch was created or deleted, no tag changed, and the history
     * only grew.
     */
    twostate predicate OnlyMoved(moved: set<string>)
      reads this
    {
      heads.Keys == old(heads.Keys) && old(commits) <= commits && tags == old(tags)
      && forall b :: b in heads && b !in moved ==>
           heads[b] == old(heads[b]) && heads[b] < |old(commits)| && commits[heads[b]] == old(commits[heads[b]])
    }

    /** `git tag -f name branch`. */
    method Tag(name: string, branch: string)
      requires Valid() && branch in heads
      modifies this
      ensures Valid()
      ensures tags == old(tags)[name := old(heads[branch])]
      ensures commits == old(commits) && heads == old(heads) && curbranch == old(curbranch)
    {
      tags := tags[name := heads[branch]];
    }
  }

  /**
   * `git rev-list a...b` prints nothing exactly when both branches are at
   * the same commit.
   */
  predicate SameCommit(heads: map<string, nat>, a: string, b: string)
    requires a in heads && b in heads
  {
    heads[a] == heads[b]
  }
}
