/**
 * etcmerger.py, the earliest version of the tool: the engine of v0.1
 * (one TIMESTAMP= file, optional digests) with its own run_cmd and
 * git_cmd, a report printed with separators, the user changes gathered in
 * a single user_updates list, and the cherry-pick run straight on
 * master-tmp.
 */
module EtcMergerScript {
  import opened Common
  import opened PyText
  import opened PyStrip
  import opened Digests
  import opened GitStore
  import opened EtcMaintPackages
  import opened EtcMaintUpdate
  import opened EtcLegacy
  import opened LegacyEngine
  import EtcMaintV01
  import EtcMaintCommands

  /** FIRST_COMMIT_MSG */
  const FirstCommitMsg := "First etcmerger commit"

  /** Timestamp.fname */
  const TimestampName := ".etcmerger_timestamp"

  /** The temporary branches of an update. */
  const TmpBranches: set<string> := {"etc-tmp", "master-tmp"}

  // ---------------------------------------------------------------------
  // run_cmd and git_cmd
  // ---------------------------------------------------------------------

  /** A word of the line a dry run prints: double-quoted when it holds a space. */
  function QuoteWord(n: string): string
  {
    if ' ' in n then "\"" + n + "\"" else n
  }

  /** The line run_cmd prints in a dry run instead of running the command. */
  function DryRunLine(cmd: seq<string>): string
  {
    Join(" ", MapSeq(cmd, QuoteWord))
  }

  /**
   * The printed line of a command whose words hold no space is those
   * words joined by spaces: splitting it at the spaces gives the command
   * back.
   */
  lemma DryRunLineSplits(cmd: seq<string>)
    requires cmd != [] && forall i :: 0 <= i < |cmd| ==> ' ' !in cmd[i]
    ensures PyText.Split(DryRunLine(cmd), ' ') == cmd
  {
    assert MapSeq(cmd, QuoteWord) == cmd;
    SplitOfJoin(cmd, ' ');
  }

  /** What run_cmd does: the line it prints, if any, and what it returns. */
  datatype CmdRun = CmdRun(printed: Option<string>, returned: Result<Option<string>>)

  /**
   * run_cmd(cmd, dry_run): a dry run prints the command and returns None
   * without running it; otherwise `ran` is what running it gave, its
   * output or the abort of a command that failed.
   */
  function RunCmd(cmd: seq<string>, dryRun: bool, ran: Result<string>): (r: CmdRun)
    ensures r.printed.Some? <==> dryRun
    ensures dryRun ==> r.printed.value == DryRunLine(cmd) && r.returned == Ok(None)
    ensures !dryRun ==> (r.returned.Ok? <==> ran.Ok?)
    ensures !dryRun && ran.Ok? ==> r.returned.value == Some(ran.value)
    ensures !dryRun && ran.Err? ==> r.returned.failure == ran.failure
  {
    if dryRun then CmdRun(Some(DryRunLine(cmd)), Ok(None))
    else if ran.Err? then CmdRun(None, Err(ran.failure))
    else CmdRun(None, Ok(Some(ran.value)))
  }

  /**
   * git_cmd: the output of run_cmd stripped of the newlines at both ends.
   * In a dry run run_cmd returns None, and `None.strip` raises
   * AttributeError: no git command gets past git_cmd in a dry run.
   */
  function GitCmd(cmd: seq<string>, dryRun: bool, ran: Result<string>): (r: Result<string>)
    ensures dryRun ==> r == Err(PyError("AttributeError"))
    ensures !dryRun ==> (r.Ok? <==> ran.Ok?)
    ensures r.Ok? ==> r.value == [] || (r.value[0] != '\n' && r.value[|r.value| - 1] != '\n')
  {
    match RunCmd(cmd, dryRun, ran).returned
    case Err(f) => Err(f)
    case Ok(None) => Err(PyError("AttributeError"))
    case Ok(Some(output)) => Ok(StripChar(output, '\n'))
  }

  /** The abort message of GitRepo.init for a foreign first commit, once dedented. */
  function NotARepository(found: string): string
  {
    "this is not an etcmerger repository\nfound as the first commit message:\n'" + found
      + "'\ninstead of the expected '" + FirstCommitMsg + "' message"
  }

  /**
   * The repository is one etcmerger made and is clean: the second line of
   * the rev-list output (its ends stripped of newlines) is the first
   * commit message, and the status output is empty.
   */
  predicate FirstCommitFound(revList: Result<string>, status: string)
  {
    && revList.Ok?
    && |PyText.Split(StripChar(revList.value, '\n'), '\n')| >= 2
    && PyText.Split(StripChar(revList.value, '\n'), '\n')[1] == FirstCommitMsg
    && StripChar(status, '\n') == ""
  }

  /**
   * GitRepo.init, from what `git rev-list --max-parents=0 --format=%s
   * master --` gave and the output of `git status --porcelain`: the
   * second line of the first must be the first commit message
   * (IndexError when there is none) and the status empty.
   */
  function InitCheck(repodir: string, dryRun: bool, revList: Result<string>, status: string): (r: Option<Failure>)
    ensures dryRun ==> r == Some(PyError("AttributeError"))
    ensures r.None? <==> !dryRun && FirstCommitFound(revList, status)
    ensures !dryRun && revList.Ok? ==>
      (r == Some(PyError("IndexError")) <==> |PyText.Split(StripChar(revList.value, '\n'), '\n')| < 2)
  {
    match GitCmd(["rev-list", "--max-parents=0", "--format=%s", "master", "--"], dryRun, revList)
    case Err(f) => Some(f)
    case Ok(commit) =>
      var lines := PyText.Split(commit, '\n');
      if |lines| < 2 then Some(PyError("IndexError"))
      else if lines[1] != FirstCommitMsg then Some(Abort(NotARepository(lines[1])))
      else
        match GitCmd(["status", "--porcelain"], dryRun, Ok(status))
        case Err(f) => Some(f)
        case Ok(st) =>
          if st != "" then Some(Abort("the " + repodir + " repository is not clean:\n" + st)) else None
  }

  /**
   * The repository cmd_init creates passes the check: its first commit,
   * as rev-list prints it, carries the first commit message.
   */
  lemma InitAcceptsFirstCommit(repodir: string, sha: string)
    requires sha != [] && '\n' !in sha
    ensures InitCheck(repodir, false, Ok("commit " + sha + "\n" + FirstCommitMsg + "\n"), "").None?
  {
    FirstCommitLines(sha);
    assert StripChar("", '\n') == "";
  }

  /** The lines of what rev-list prints for the first commit, once stripped. */
  lemma FirstCommitLines(sha: string)
    requires sha != [] && '\n' !in sha
    ensures PyText.Split(StripChar("commit " + sha + "\n" + FirstCommitMsg + "\n", '\n'), '\n') == ["commit " + sha, FirstCommitMsg]
  {
    var head := "commit " + sha;
    FirstCommitStripped(head);
    assert '\n' !in head;
    SplitOfJoin([head, FirstCommitMsg], '\n');
  }

  /** Stripping the newlines off the two lines rev-list prints leaves them joined by one. */
  lemma FirstCommitStripped(head: string)
    requires head != [] && head[0] == 'c'
    ensures StripChar(head + "\n" + FirstCommitMsg + "\n", '\n') == Join("\n", [head, FirstCommitMsg])
  {
    var text := head + "\n" + FirstCommitMsg;
    assert head + "\n" + FirstCommitMsg + "\n" == text + ['\n'];
    assert text[0] == 'c' && text[|text| - 1] == 't';
    StripCharTrailing(text, '\n');
    assert Join("\n", [head, FirstCommitMsg]) == text;
  }

  // ---------------------------------------------------------------------
  // UpdateResults.__str__
  // ---------------------------------------------------------------------

  /** The separator line before each list. */
  const Separator := "----------------------------------------\n"

  /** The closing line of a report without files to cherry-pick. */
  const NoFilesToSync := "No files to sync to /etc"

  const RemovedHeader := "List of the files removed from both branches (missing in /etc):\n"

  const SyncHeader := "List of the files to sync to /etc:\n"

  /** The dedented header of user_updates, for the branches named with `btype`. */
  function UserUpdatesHeader(btype: string): string
  {
    "List of the files in the 'master" + btype + "' branch that have been updated\n"
    + "on /etc and of the new files added to the 'master" + btype + "' branch\n"
    + "because their counterpart in the 'etc" + btype + "' branch differs now from\n"
    + "the corresponding /etc file:\n"
  }

  /** The dedented header of pkg_add_etc and pkg_add_master. */
  function PkgAddHeader(branch: string): string
  {
    "List of the files extracted from a package and added to the '" + branch + "' branch:\n"
  }

  /**
   * add_list(files, msg): nothing for an empty list, otherwise the
   * separator, the header and the files one per line.
   */
  function ListBlock(files: seq<string>, header: string): (r: string)
    ensures r == "" <==> files == []
    ensures files != [] ==> StartsWith(r, Separator + header) && EndsWith(r, "\n")
  {
    if files == [] then "" else Separator + header + Join("\n", files) + "\n"
  }

  /** The files of a block, one per line between its header and its last newline, read back. */
  lemma ListBlockReadsBack(files: seq<string>, header: string)
    requires files != [] && forall i :: 0 <= i < |files| ==> '\n' !in files[i]
    ensures var r := ListBlock(files, header);
      PyText.Split(r[|Separator + header|..|r| - 1], '\n') == files
  {
    var r := ListBlock(files, header);
    assert r[|Separator + header|..|r| - 1] == Join("\n", files);
    SplitOfJoin(files, '\n');
  }

  /** __str__: the five lists in their order, then the closing line when nothing is to be cherry-picked. */
  function Report(btype: string, etcRemoved: seq<string>, userUpdates: seq<string>, pkgAddEtc: seq<string>,
                  pkgAddMaster: seq<string>, cherryPick: seq<string>): (r: string)
    ensures etcRemoved == [] && userUpdates == [] && pkgAddEtc == [] && pkgAddMaster == [] && cherryPick == [] ==>
              r == NoFilesToSync
  {
    ListBlock(etcRemoved, RemovedHeader) + ListBlock(userUpdates, UserUpdatesHeader(btype))
    + ListBlock(pkgAddEtc, PkgAddHeader("etc" + btype)) + ListBlock(pkgAddMaster, PkgAddHeader("master" + btype))
    + ListBlock(cherryPick, SyncHeader) + (if cherryPick == [] then NoFilesToSync else "")
  }

  /** The report closes with "No files to sync to /etc" exactly when there is nothing to cherry-pick. */
  lemma ReportClosing(btype: string, etcRemoved: seq<string>, userUpdates: seq<string>, pkgAddEtc: seq<string>,
                      pkgAddMaster: seq<string>, cherryPick: seq<string>)
    ensures EndsWith(Report(btype, etcRemoved, userUpdates, pkgAddEtc, pkgAddMaster, cherryPick), NoFilesToSync)
            <==> cherryPick == []
  {
    var r := Report(btype, etcRemoved, userUpdates, pkgAddEtc, pkgAddMaster, cherryPick);
    if cherryPick != [] {
      var head := ListBlock(etcRemoved, RemovedHeader) + ListBlock(userUpdates, UserUpdatesHeader(btype))
                  + ListBlock(pkgAddEtc, PkgAddHeader("etc" + btype)) + ListBlock(pkgAddMaster, PkgAddHeader("master" + btype));
      var last := ListBlock(cherryPick, SyncHeader);
      assert r == head + last;
      assert r[|r| - 1] == last[|last| - 1] == '\n';
      assert NoFilesToSync[|NoFilesToSync| - 1] == 'c';
    }
  }

  /** The lists of an update and the report of them. */
  class UpdateResults {
    var etcRemoved: seq<Path>
    var userUpdates: seq<Path>
    var pkgAddEtc: seq<Path>
    var pkgAddMaster: seq<Path>
    var cherryPick: seq<Path>
    var btype: string

    constructor ()
      ensures etcRemoved == [] && userUpdates == [] && pkgAddEtc == [] && pkgAddMaster == [] && cherryPick == []
      ensures btype == ""
    {
      etcRemoved, userUpdates, pkgAddEtc, pkgAddMaster, cherryPick := [], [], [], [], [];
      btype := "";
    }

    /** __str__: the report closes with "No files to sync to /etc" exactly when cherry_pick is empty. */
    function Str(): (s: string)
      reads this
      ensures EndsWith(s, NoFilesToSync) <==> cherryPick == []
    {
      ReportClosing(btype, etcRemoved, userUpdates, pkgAddEtc, pkgAddMaster, cherryPick);
      Report(btype, etcRemoved, userUpdates, pkgAddEtc, pkgAddMaster, cherryPick)
    }
  }

  // ---------------------------------------------------------------------
  // git_user_updates
  // ---------------------------------------------------------------------

  /**
   * user_updates: first the listed /etc files whose etc-tmp copy differs
   * from /etc and that master-tmp does not track, then the listed files
   * master-tmp tracks whose copy differs from /etc (None, an unreadable
   * file, differing from any copy).
   */
  function UserUpdates(etcFiles: seq<Path>, etcTree: Tree, masterTree: Tree, live: map<Path, Option<Digest>>): seq<Path>
  {
    Filter(EtcMaintV01.ToCheckV01(etcFiles, etcTree, live), p => p !in masterTree)
    + Filter(etcFiles, p => p in masterTree && LiveOf(live, p) != RepoDigest(masterTree, p))
  }

  /** The members of user_updates in terms of the digests. */
  lemma UserUpdatesMembers(etcFiles: seq<Path>, etcTree: Tree, masterTree: Tree, live: map<Path, Option<Digest>>, p: Path)
    ensures p in UserUpdates(etcFiles, etcTree, masterTree, live) <==>
      p in etcFiles
      && ((p in etcTree && p !in masterTree && LiveOf(live, p) != RepoDigest(etcTree, p))
          || (p in masterTree && LiveOf(live, p) != RepoDigest(masterTree, p)))
  {
    FilterMembers(etcFiles, p => p in etcTree && LiveOf(live, p) != RepoDigest(etcTree, p));
    FilterMembers(EtcMaintV01.ToCheckV01(etcFiles, etcTree, live), p => p !in masterTree);
    FilterMembers(etcFiles, p => p in masterTree && LiveOf(live, p) != RepoDigest(masterTree, p));
  }

  /** master-tmp after git_user_updates: the files of user_updates copied from /etc, in one commit. */
  function MasterAfterUpdates(etcFiles: seq<Path>, etcTree: Tree, masterTree: Tree, live: map<Path, Option<Digest>>): Tree
  {
    masterTree + LiveCopied(live, UserUpdates(etcFiles, etcTree, masterTree, live))
  }

  /**
   * When the copies succeed, every listed /etc file master-tmp tracked is
   * then the same as its master-tmp copy, every listed file etc-tmp
   * tracks is the same as its etc-tmp copy or tracked in master-tmp, and
   * so git_user_updates run again at once finds nothing to update.
   */
  lemma UserUpdatesSettle(etcFiles: seq<Path>, etcTree: Tree, masterTree: Tree, live: map<Path, Option<Digest>>)
    requires forall p :: p in UserUpdates(etcFiles, etcTree, masterTree, live) ==> LiveOf(live, p).Some?
    ensures var master' := MasterAfterUpdates(etcFiles, etcTree, masterTree, live);
      && (forall p :: p in etcFiles && p in masterTree ==> RepoDigest(master', p) == LiveOf(live, p))
      && (forall p :: p in etcFiles && p in etcTree ==> LiveOf(live, p) == RepoDigest(etcTree, p) || p in master')
      && UserUpdates(etcFiles, etcTree, master', live) == []
  {
    var updates := UserUpdates(etcFiles, etcTree, masterTree, live);
    var master' := MasterAfterUpdates(etcFiles, etcTree, masterTree, live);
    forall p | p in etcFiles && p in master'
      ensures RepoDigest(master', p) == LiveOf(live, p)
    {
      UserUpdatesMembers(etcFiles, etcTree, masterTree, live, p);
      if p !in LiveCopied(live, updates) {
        assert p !in updates;
      }
    }
    forall p | p in etcFiles && p in etcTree
      ensures LiveOf(live, p) == RepoDigest(etcTree, p) || p in master'
    {
      UserUpdatesMembers(etcFiles, etcTree, masterTree, live, p);
    }
    var again := UserUpdates(etcFiles, etcTree, master', live);
    if again != [] {
      var p := again[0];
      UserUpdatesMembers(etcFiles, etcTree, master', live, p);
      UserUpdatesMembers(etcFiles, etcTree, masterTree, live, p);
      assert false;
    }
  }

  // ---------------------------------------------------------------------
  // The update command
  // ---------------------------------------------------------------------

  /** The git command git_upgraded_pkgs runs to get the id of the cherry_pick commit, as written. */
  const RevListAsWritten := "git rev-list -1 HEAD --"

  /** The git command that cherry-picks that commit onto master-tmp. */
  const CherryPickCmd := "cherry-pick -x"

  /**
   * The update command of etcmerger.py. /etc is a parameter of the
   * methods that read it: `live` maps the path of every regular file of
   * / that the repository may track to its digest (None when it cannot be
   * read), and `etcFiles` is list_files('/etc') under etc/. The pacman
   * cache, the outputs of the git commands GitRepo.init runs and the
   * outcome of the cherry-pick are parameters too.
   */
  class EtcMerger {
    const repodir: string
    const repo: GitRepo
    const results: UpdateResults
    const dryRun: bool
    const excludeFiles: seq<Path>
    const excludePkgs: seq<string>

    constructor (repodir: string, repo: GitRepo, dryRun: bool, excludeFiles: seq<Path>, excludePkgs: seq<string>)
      ensures this.repodir == repodir && this.repo == repo && this.dryRun == dryRun
      ensures this.excludeFiles == excludeFiles && this.excludePkgs == excludePkgs
      ensures fresh(results) && results.etcRemoved == [] && results.userUpdates == []
      ensures results.pkgAddEtc == [] && results.pkgAddMaster == [] && results.cherryPick == [] && results.btype == ""
    {
      this.repodir, this.repo, this.dryRun := repodir, repo, dryRun;
      this.excludeFiles, this.excludePkgs := excludeFiles, excludePkgs;
      results := new UpdateResults();
    }

    // -------------------------------------------------------------------
    // git_upgraded_pkgs
    // -------------------------------------------------------------------

    /** Timestamp.value on etc-tmp: the working tree checked out on etc-tmp, then its timestamp file read. */
    method ReadTimestamp() returns (stamp: Result<int>)
      requires repo.Valid() && "etc-tmp" in repo.heads
      modifies repo
      ensures repo.Valid() && repo.curbranch == Some("etc-tmp")
      ensures repo.heads == old(repo.heads) && repo.commits == old(repo.commits) && repo.tags == old(repo.tags)
      ensures stamp == StampIn(repo.TreeOf("etc-tmp"), TimestampName)
    {
      repo.Checkout("etc-tmp", false);
      stamp := StampIn(repo.TreeOf("etc-tmp"), TimestampName);
    }

    /**
     * scan_cachedir once the timestamp of etc-tmp is read: extract the
     * archives newer than it over the etc-tmp working tree, and sort the
     * extracted files into the lists.
     */
    method ScanCachedir(cache: seq<PkgFile>, live: map<Path, Option<Digest>>, timestamp: int)
      returns (u: Unpacked, ghost pkgs: seq<PkgFile>, ghost selected: map<string, nat>, ghost order: seq<string>)
      requires repo.Valid() && "etc-tmp" in repo.heads
      requires results.pkgAddEtc == [] && results.pkgAddMaster == [] && results.cherryPick == []
      modifies results`pkgAddEtc, results`pkgAddMaster, results`cherryPick
      ensures var etc0 := repo.TreeOf("etc-tmp");
        && LegacyArchives(cache, timestamp, excludePkgs, pkgs, selected, order)
        && u == UnpackAll(etc0, pkgs, excludeFiles)
        && (forall q :: q in u.order ==> RepoDigest(u.work, q).Some?)
        && results.pkgAddEtc == AddEtc(u.order, u, live, etc0.Keys)
        && results.pkgAddMaster == AddMaster(u.order, u, live, etc0.Keys)
        && results.cherryPick == Picks(u.order, u, live, etc0.Keys)
        && (forall p :: p in results.pkgAddMaster ==> LiveOf(live, p).Some?)
    {
      var etc0 := repo.TreeOf("etc-tmp");
      var etcTracked := repo.LsTree("etc-tmp");
      var addEtc, addMaster, picks;
      addEtc, addMaster, picks, u, pkgs, selected, order :=
        EtcMaintV01.ScanArchives(cache, timestamp, excludePkgs, excludeFiles, etc0, Elems(etcTracked), live);
      results.pkgAddEtc, results.pkgAddMaster, results.cherryPick := addEtc, addMaster, picks;
      FilterMembers(u.order, p => LegacyVerdict(p, u, live, etc0.Keys) == Installed(true));
      UnpackAllEffect(etc0, pkgs, excludeFiles);
    }

    /** The etc-tmp commits of git_upgraded_pkgs: pkg_add_etc, then cherry_pick in a commit of its own. */
    method CommitEtcTmp(work: Tree) returns (pick: Option<nat>)
      requires repo.Valid() && repo.curbranch == Some("etc-tmp") && "etc-tmp" in repo.heads
      modifies repo
      ensures repo.Valid() && repo.curbranch == Some("etc-tmp") && repo.OnlyMoved({"etc-tmp"})
      ensures repo.TreeOf("etc-tmp") == old(repo.TreeOf("etc-tmp")) + Restrict(work, Elems(results.pkgAddEtc))
                                                                    + Restrict(work, Elems(results.cherryPick))
      ensures pick.Some? <==> results.cherryPick != []
    {
      var _ := CommitListed(repo, results.pkgAddEtc, Restrict(work, Elems(results.pkgAddEtc)));
      pick := CommitListed(repo, results.cherryPick, Restrict(work, Elems(results.cherryPick)));
    }

    /**
     * The commits of git_upgraded_pkgs as written, the extracted files
     * being in `work`: the failing rev-list comes right after the
     * cherry_pick commit.
     */
    method CommitUpgradesAsWritten(work: Tree, live: map<Path, Option<Digest>>) returns (r: Result<()>)
      requires repo.Valid() && repo.curbranch == Some("etc-tmp") && "etc-tmp" in repo.heads && "master-tmp" in repo.heads
      requires forall p :: p in results.pkgAddMaster ==> LiveOf(live, p).Some?
      modifies repo
      ensures repo.Valid() && repo.OnlyMoved(TmpBranches)
      ensures repo.TreeOf("etc-tmp") == old(repo.TreeOf("etc-tmp")) + Restrict(work, Elems(results.pkgAddEtc))
                                                                    + Restrict(work, Elems(results.cherryPick))
      ensures r.Err? <==> results.cherryPick != []
      ensures r.Err? ==> r.failure == GitError(RevListAsWritten) && repo.TreeOf("master-tmp") == old(repo.TreeOf("master-tmp"))
      ensures r.Ok? ==> repo.TreeOf("master-tmp") == old(repo.TreeOf("master-tmp")) + LiveCopied(live, results.pkgAddMaster)
    {
      var pick := CommitEtcTmp(work);
      if pick.Some? {
        return Err(GitError(RevListAsWritten));
      }
      // git clean -d -x -f
      CommitMasterAdds(live);
      r := Ok(());
    }

    /**
     * The commits of git_upgraded_pkgs once the id of the cherry_pick
     * commit is read right: the etc-tmp commits, the master-tmp commit of
     * pkg_add_master, then the cherry-pick onto master-tmp.
     */
    method CommitUpgrades(work: Tree, live: map<Path, Option<Digest>>, outcome: EtcMaintCommands.PickOutcome)
      returns (r: Result<()>)
      requires repo.Valid() && repo.curbranch == Some("etc-tmp") && "etc-tmp" in repo.heads && "master-tmp" in repo.heads
      requires forall p :: p in results.pkgAddMaster ==> LiveOf(live, p).Some?
      modifies repo
      ensures repo.Valid() && repo.OnBranch() && repo.OnlyMoved(TmpBranches)
      ensures repo.TreeOf("etc-tmp") == old(repo.TreeOf("etc-tmp")) + Restrict(work, Elems(results.pkgAddEtc))
                                                                    + Restrict(work, Elems(results.cherryPick))
      ensures r.Err? <==> results.cherryPick != [] && outcome.Stopped?
      ensures r.Err? ==> r.failure == GitError(CherryPickCmd)
      ensures results.cherryPick == [] || outcome.Stopped? ==>
                repo.TreeOf("master-tmp") == old(repo.TreeOf("master-tmp")) + LiveCopied(live, results.pkgAddMaster)
      ensures results.cherryPick != [] && outcome.Applied? ==> repo.TreeOf("master-tmp") == outcome.tree
    {
      var pick := CommitEtcTmp(work);
      // git rev-list -1 HEAD --, then git clean -d -x -f
      CommitMasterAdds(live);
      r := Ok(());
      if pick.Some? {
        r := CherryPickOnMaster(outcome);
      }
    }

    /** The master-tmp commit of git_upgraded_pkgs: the files of pkg_add_master copied from /etc. */
    method CommitMasterAdds(live: map<Path, Option<Digest>>)
      requires repo.Valid() && repo.OnBranch() && "master-tmp" in repo.heads
      requires forall p :: p in results.pkgAddMaster ==> LiveOf(live, p).Some?
      modifies repo
      ensures repo.Valid() && repo.OnBranch() && repo.OnlyMoved({"master-tmp"})
      ensures repo.TreeOf("master-tmp") == old(repo.TreeOf("master-tmp")) + LiveCopied(live, results.pkgAddMaster)
      ensures results.pkgAddMaster == [] ==> repo.curbranch == old(repo.curbranch)
      ensures results.pkgAddMaster != [] ==> repo.curbranch == Some("master-tmp")
    {
      if results.pkgAddMaster != [] {
        repo.Checkout("master-tmp", false);
        var copies := CopyLive(live, results.pkgAddMaster);
        var _ := CommitListed(repo, results.pkgAddMaster, copies.value);
      } else {
        assert LiveCopied(live, results.pkgAddMaster) == map[];
        assert repo.TreeOf("master-tmp") + map[] == repo.TreeOf("master-tmp");
      }
    }

    /**
     * `git cherry-pick -x <sha1>` on master-tmp: a commit of the tree git
     * computed when it applies; when it stops, run_cmd aborts the update.
     */
    method CherryPickOnMaster(outcome: EtcMaintCommands.PickOutcome) returns (r: Result<()>)
      requires repo.Valid() && "master-tmp" in repo.heads
      requires repo.OnBranch()
      modifies repo
      ensures repo.Valid() && repo.curbranch == Some("master-tmp") && repo.OnlyMoved({"master-tmp"})
      ensures r.Err? <==> outcome.Stopped?
      ensures r.Err? ==> r.failure == GitError(CherryPickCmd) && repo.heads == old(repo.heads)
      ensures r.Ok? ==> repo.TreeOf("master-tmp") == outcome.tree
    {
      repo.Checkout("master-tmp", false);
      match outcome {
        case Applied(tree) =>
          var _ := repo.CommitTree(tree);
          r := Ok(());
        case Stopped(_, _) =>
          r := Err(GitError(CherryPickCmd));
      }
    }

    /**
     * git_upgraded_pkgs as written: the command that should print the id
     * of the cherry_pick commit is `git git rev-list ...`, which git
     * refuses, so run_cmd aborts every update that has a file to
     * cherry-pick, right after committing it to etc-tmp and before
     * master-tmp gets anything.
     */
    method GitUpgradedPkgsAsWritten(cache: seq<PkgFile>, live: map<Path, Option<Digest>>)
      returns (r: Result<()>, u: Unpacked, ghost pkgs: seq<PkgFile>, ghost selected: map<string, nat>,
               ghost order: seq<string>)
      requires repo.Valid() && "etc-tmp" in repo.heads && "master-tmp" in repo.heads
      requires results.pkgAddEtc == [] && results.pkgAddMaster == [] && results.cherryPick == []
      modifies repo, results`pkgAddEtc, results`pkgAddMaster, results`cherryPick
      ensures repo.Valid() && repo.OnlyMoved(TmpBranches)
      ensures StampIn(old(repo.TreeOf("etc-tmp")), TimestampName).Err? ==> r.Err? && repo.heads == old(repo.heads)
      ensures StampIn(old(repo.TreeOf("etc-tmp")), TimestampName).Ok? ==>
        var etc0 := old(repo.TreeOf("etc-tmp"));
        && LegacyArchives(cache, StampIn(etc0, TimestampName).value, excludePkgs, pkgs, selected, order)
        && u == UnpackAll(etc0, pkgs, excludeFiles)
        && results.cherryPick == Picks(u.order, u, live, etc0.Keys)
        && (r.Err? <==> results.cherryPick != [])
        && (r.Err? ==> r.failure == GitError(RevListAsWritten)
                       && repo.TreeOf("etc-tmp") == EtcMaintV01.EtcAfterUpgradeV01(etc0, u, live)
                       && repo.TreeOf("master-tmp") == old(repo.TreeOf("master-tmp")))
    {
      ghost var etc0 := repo.TreeOf("etc-tmp");
      pkgs, selected, order, u := [], map[], [], Unpacked([], map[], map[]);
      var stamp := ReadTimestamp();
      if stamp.Err? {
        return Err(stamp.failure), u, pkgs, selected, order;
      }
      u, pkgs, selected, order := ScanCachedir(cache, live, stamp.value);
      r := CommitUpgradesAsWritten(u.work, live);
    }

    /**
     * git_upgraded_pkgs with the id of the cherry_pick commit read by
     * `git rev-list -1 HEAD --`: the etc-tmp commits, the master-tmp
     * commit of pkg_add_master, then the cherry-pick onto master-tmp.
     */
    method GitUpgradedPkgs(cache: seq<PkgFile>, live: map<Path, Option<Digest>>, outcome: EtcMaintCommands.PickOutcome)
      returns (r: Result<()>, u: Unpacked, ghost pkgs: seq<PkgFile>, ghost selected: map<string, nat>,
               ghost order: seq<string>)
      requires repo.Valid() && "etc-tmp" in repo.heads && "master-tmp" in repo.heads
      requires results.pkgAddEtc == [] && results.pkgAddMaster == [] && results.cherryPick == []
      modifies repo, results`pkgAddEtc, results`pkgAddMaster, results`cherryPick
      ensures repo.Valid() && repo.OnlyMoved(TmpBranches)
      ensures var stamp := StampIn(old(repo.TreeOf("etc-tmp")), TimestampName);
        stamp.Err? ==> r == Err(stamp.failure) && repo.heads == old(repo.heads)
      ensures StampIn(old(repo.TreeOf("etc-tmp")), TimestampName).Ok? ==>
        var etc0, master0 := old(repo.TreeOf("etc-tmp")), old(repo.TreeOf("master-tmp"));
        && repo.OnBranch()
        && LegacyArchives(cache, StampIn(etc0, TimestampName).value, excludePkgs, pkgs, selected, order)
        && u == UnpackAll(etc0, pkgs, excludeFiles)
        && (forall q :: q in u.order ==> RepoDigest(u.work, q).Some?)
        && results.pkgAddEtc == AddEtc(u.order, u, live, etc0.Keys)
        && results.pkgAddMaster == AddMaster(u.order, u, live, etc0.Keys)
        && results.cherryPick == Picks(u.order, u, live, etc0.Keys)
        && repo.TreeOf("etc-tmp") == EtcMaintV01.EtcAfterUpgradeV01(etc0, u, live)
        && (r.Err? <==> results.cherryPick != [] && outcome.Stopped?)
        && (r.Err? ==> r.failure == GitError(CherryPickCmd))
        && (results.cherryPick == [] || outcome.Stopped? ==>
              repo.TreeOf("master-tmp") == EtcMaintV01.MasterAfterUpgradeV01(master0, u, live, etc0.Keys))
        && (results.cherryPick != [] && outcome.Applied? ==> repo.TreeOf("master-tmp") == outcome.tree)
    {
      ghost var etc0 := repo.TreeOf("etc-tmp");
      pkgs, selected, order, u := [], map[], [], Unpacked([], map[], map[]);
      var stamp := ReadTimestamp();
      if stamp.Err? {
        return Err(stamp.failure), u, pkgs, selected, order;
      }
      u, pkgs, selected, order := ScanCachedir(cache, live, stamp.value);
      r := CommitUpgrades(u.work, live, outcome);
    }

    // -------------------------------------------------------------------
    // git_removed_pkgs and git_user_updates
    // -------------------------------------------------------------------

    /** git_removed_pkgs: the files of etc-tmp missing in /etc, removed from both branches. */
    method GitRemovedPkgs(live: map<Path, Option<Digest>>) returns (ghost etcTracked: seq<Path>)
      requires repo.Valid() && repo.OnBranch() && "etc-tmp" in repo.heads && "master-tmp" in repo.heads
      requires results.etcRemoved == []
      modifies repo, results`etcRemoved
      ensures repo.Valid() && repo.OnBranch() && repo.OnlyMoved(TmpBranches)
      ensures Distinct(etcTracked) && Elems(etcTracked) == old(repo.TreeOf("etc-tmp")).Keys
      ensures results.etcRemoved == LegacyEtcRemoved(etcTracked, live, TimestampName)
      ensures repo.TreeOf("etc-tmp") == Without(old(repo.TreeOf("etc-tmp")), Elems(results.etcRemoved))
      ensures repo.TreeOf("master-tmp") == Without(old(repo.TreeOf("master-tmp")), Elems(results.etcRemoved))
    {
      var removed;
      removed, etcTracked := LegacyEngine.GitRemovedPkgs(repo, live, TimestampName);
      results.etcRemoved := results.etcRemoved + removed;
    }

    /**
     * git_user_updates: compare the listed /etc files with etc-tmp (checked
     * out to read its digests), then with master-tmp, and commit to
     * master-tmp the files of user_updates copied from /etc. Copying a
     * file that cannot be read raises.
     */
    method GitUserUpdates(etcFiles: seq<Path>, live: map<Path, Option<Digest>>) returns (r: Result<()>)
      requires repo.Valid() && "etc-tmp" in repo.heads && "master-tmp" in repo.heads
      requires results.userUpdates == []
      modifies repo, results`userUpdates
      ensures repo.Valid() && repo.curbranch == Some("master-tmp") && repo.OnlyMoved({"master-tmp"})
      ensures results.userUpdates == UserUpdates(etcFiles, old(repo.TreeOf("etc-tmp")), old(repo.TreeOf("master-tmp")), live)
      ensures r.Ok? <==> forall p :: p in results.userUpdates ==> LiveOf(live, p).Some?
      ensures r.Err? ==> r.failure == PyError("OSError") && repo.heads == old(repo.heads)
      ensures r.Ok? ==>
        repo.TreeOf("master-tmp") == MasterAfterUpdates(etcFiles, old(repo.TreeOf("etc-tmp")), old(repo.TreeOf("master-tmp")), live)
    {
      var files := SelectUserUpdates(etcFiles, live);
      results.userUpdates := results.userUpdates + files;
      r := CommitCopies(results.userUpdates, live);
    }

    /**
     * The comparisons of git_user_updates: the files that differ from
     * etc-tmp (read with etc-tmp checked out) and are not on master-tmp,
     * then those that differ from master-tmp (checked out next).
     */
    method SelectUserUpdates(etcFiles: seq<Path>, live: map<Path, Option<Digest>>) returns (files: seq<Path>)
      requires repo.Valid() && "etc-tmp" in repo.heads && "master-tmp" in repo.heads
      modifies repo
      ensures repo.Valid() && repo.curbranch == Some("master-tmp")
      ensures repo.heads == old(repo.heads) && repo.commits == old(repo.commits) && repo.tags == old(repo.tags)
      ensures files == UserUpdates(etcFiles, old(repo.TreeOf("etc-tmp")), old(repo.TreeOf("master-tmp")), live)
    {
      var etcTree, masterTree := repo.TreeOf("etc-tmp"), repo.TreeOf("master-tmp");
      repo.Checkout("etc-tmp", false);
      var toCheck := EtcMaintCommands.SelectNames(etcFiles, p => p in etcTree && LiveOf(live, p) != RepoDigest(etcTree, p));
      repo.Checkout("master-tmp", false);
      var added := EtcMaintCommands.SelectNames(toCheck, p => p !in masterTree);
      var updated := EtcMaintCommands.SelectNames(etcFiles, p => p in masterTree && LiveOf(live, p) != RepoDigest(masterTree, p));
      files := added + updated;
    }

    /** `for name in files: copy_from_etc(name, ...)` then `if files: commit(files, msg)`. */
    method CommitCopies(files: seq<Path>, live: map<Path, Option<Digest>>) returns (r: Result<()>)
      requires repo.Valid() && repo.OnBranch()
      modifies repo
      ensures repo.Valid() && repo.curbranch == old(repo.curbranch) && repo.OnlyMoved({repo.curbranch.value})
      ensures r.Ok? <==> forall p :: p in files ==> LiveOf(live, p).Some?
      ensures r.Ok? ==> repo.TreeOf(repo.curbranch.value) == old(repo.TreeOf(repo.curbranch.value)) + LiveCopied(live, files)
      ensures r.Err? ==> r.failure == PyError("OSError") && repo.heads == old(repo.heads)
    {
      var copied := CopyLive(live, files);
      if copied.Err? {
        return Err(copied.failure);
      }
      var _ := CommitListed(repo, files, copied.value);
      r := Ok(());
    }

    // -------------------------------------------------------------------
    // _cmd_update and cmd_update
    // -------------------------------------------------------------------

    /**
     * The package part of _cmd_update: create the temporary branches and
     * commit the upgraded packages.
     */
    method PackageUpdates(cache: seq<PkgFile>, live: map<Path, Option<Digest>>, outcome: EtcMaintCommands.PickOutcome)
      returns (r: Result<()>)
      requires repo.Valid() && "etc" in repo.heads && "master" in repo.heads
      requires results.pkgAddEtc == [] && results.pkgAddMaster == [] && results.cherryPick == []
      modifies repo, results`pkgAddEtc, results`pkgAddMaster, results`cherryPick
      ensures repo.Valid() && repo.tags == old(repo.tags) && old(repo.commits) <= repo.commits
      ensures repo.heads.Keys == old(repo.heads.Keys) + TmpBranches
      ensures forall b :: b in old(repo.heads) && b !in TmpBranches ==> repo.heads[b] == old(repo.heads[b])
      ensures r.Ok? ==> repo.OnBranch()
    {
      CreateTmpBranches(repo);
      ghost var heads1 := repo.heads;
      assert heads1.Keys == old(repo.heads.Keys) + TmpBranches;
      var upgraded, _, _, _, _ := GitUpgradedPkgs(cache, live, outcome);
      assert repo.heads.Keys == heads1.Keys && forall b :: b in heads1 && b !in TmpBranches ==> repo.heads[b] == heads1[b];
      if upgraded.Err? {
        return Err(upgraded.failure);
      }
      r := Ok(());
    }

    /**
     * The rest of the commits of _cmd_update: the removed files, then the
     * user changes, after which git_user_updates would find nothing more.
     */
    method RemovedAndUserUpdates(etcFiles: seq<Path>, live: map<Path, Option<Digest>>) returns (r: Result<()>)
      requires repo.Valid() && repo.OnBranch() && "etc-tmp" in repo.heads && "master-tmp" in repo.heads
      requires results.etcRemoved == [] && results.userUpdates == []
      modifies repo, results`etcRemoved, results`userUpdates
      ensures repo.Valid() && repo.OnlyMoved(TmpBranches)
      ensures r.Ok? ==>
                && repo.curbranch == Some("master-tmp")
                && UserUpdates(etcFiles, repo.TreeOf("etc-tmp"), repo.TreeOf("master-tmp"), live) == []
    {
      var _ := GitRemovedPkgs(live);
      ghost var etcTree, masterTree := repo.TreeOf("etc-tmp"), repo.TreeOf("master-tmp");
      r := GitUserUpdates(etcFiles, live);
      if r.Ok? {
        UserUpdatesSettle(etcFiles, etcTree, masterTree, live);
      }
    }

    /** The commits of _cmd_update to the temporary branches, which it creates first. */
    method UpdateTmpBranches(cache: seq<PkgFile>, live: map<Path, Option<Digest>>, etcFiles: seq<Path>,
                             outcome: EtcMaintCommands.PickOutcome)
      returns (r: Result<()>)
      requires repo.Valid() && "etc" in repo.heads && "master" in repo.heads
      requires results.etcRemoved == [] && results.userUpdates == []
      requires results.pkgAddEtc == [] && results.pkgAddMaster == [] && results.cherryPick == []
      modifies repo, results`etcRemoved, results`userUpdates, results`pkgAddEtc, results`pkgAddMaster, results`cherryPick
      ensures repo.Valid() && repo.tags == old(repo.tags) && old(repo.commits) <= repo.commits
      ensures repo.heads.Keys == old(repo.heads.Keys) + TmpBranches
      ensures forall b :: b in old(repo.heads) && b !in TmpBranches ==> repo.heads[b] == old(repo.heads[b])
      ensures r.Ok? ==>
                && repo.curbranch == Some("master-tmp")
                && UserUpdates(etcFiles, repo.TreeOf("etc-tmp"), repo.TreeOf("master-tmp"), live) == []
    {
      r := PackageUpdates(cache, live, outcome);
      if r.Err? {
        return;
      }
      ghost var heads1 := repo.heads;
      r := RemovedAndUserUpdates(etcFiles, live);
      assert repo.heads.Keys == heads1.Keys && forall b :: b in heads1 && b !in TmpBranches ==> repo.heads[b] == heads1[b];
    }

    /**
     * The end of _cmd_update: a dry run calls remove_tmp_branches (which
     * fast-forwards master and etc to the temporary branches), a real run
     * finalizes when there is nothing to cherry-pick; HEAD back on master.
     */
    method FinishUpdate(t: int) returns (r: Result<()>)
      requires repo.Valid() && "etc-tmp" in repo.heads && "master-tmp" in repo.heads
      requires "etc" in repo.heads && "master" in repo.heads
      modifies repo
      ensures repo.Valid() && repo.tags == old(repo.tags) && old(repo.commits) <= repo.commits
      ensures r.Ok? ==> repo.curbranch == Some("master")
      ensures dryRun ==> r.Ok? && repo.heads.Keys == old(repo.heads.Keys) - TmpBranches
      ensures !dryRun && results.cherryPick == [] && r.Ok? ==>
                && repo.heads.Keys == old(repo.heads.Keys) - TmpBranches
                && StampIn(repo.TreeOf("etc"), TimestampName) == Ok(t)
      ensures !dryRun && results.cherryPick != [] ==> r.Ok? && repo.heads == old(repo.heads)
    {
      r := Ok(());
      if dryRun {
        var _ := RemoveTmpBranches(repo);
      } else if results.cherryPick == [] {
        ghost var etcTree := repo.TreeOf("etc-tmp");
        r := Finalize(repo, t, TimestampName);
        if r.Err? {
          return;
        }
        FinalizedStampReadsBack(etcTree, t, TimestampName);
      }
      repo.Checkout("master", false);
    }

    /** _cmd_update once GitRepo.init (which leaves HEAD on master) has passed. */
    method UpdateBranches(cache: seq<PkgFile>, live: map<Path, Option<Digest>>, etcFiles: seq<Path>,
                          outcome: EtcMaintCommands.PickOutcome, t: int)
      returns (r: Result<()>)
      requires repo.Valid() && "etc" in repo.heads && "master" in repo.heads
      requires results.etcRemoved == [] && results.userUpdates == []
      requires results.pkgAddEtc == [] && results.pkgAddMaster == [] && results.cherryPick == []
      modifies repo, results`etcRemoved, results`userUpdates, results`pkgAddEtc, results`pkgAddMaster, results`cherryPick
      ensures repo.Valid() && repo.tags == old(repo.tags) && old(repo.commits) <= repo.commits
      ensures r.Ok? ==> repo.curbranch == Some("master")
      ensures r.Ok? && (dryRun || results.cherryPick == []) ==> repo.heads.Keys == old(repo.heads.Keys) - TmpBranches
      ensures r.Ok? && !dryRun && results.cherryPick == [] ==> StampIn(repo.TreeOf("etc"), TimestampName) == Ok(t)
      ensures r.Ok? && !dryRun && results.cherryPick != [] ==>
                && repo.heads.Keys == old(repo.heads.Keys) + TmpBranches
                && (forall b :: b in old(repo.heads) && b !in TmpBranches ==> repo.heads[b] == old(repo.heads[b]))
                && UserUpdates(etcFiles, repo.TreeOf("etc-tmp"), repo.TreeOf("master-tmp"), live) == []
    {
      repo.Checkout("master", false);
      r := UpdateTmpBranches(cache, live, etcFiles, outcome);
      if r.Err? {
        return;
      }
      r := FinishUpdate(t);
    }

    /**
     * cmd_update: GitRepo.init, _cmd_update, then the report, its headers
     * naming the temporary branches when they are still there. A dry run
     * stops at the first git command of GitRepo.init.
     */
    method CmdUpdate(revList: Result<string>, status: string, cache: seq<PkgFile>, live: map<Path, Option<Digest>>,
                     etcFiles: seq<Path>, outcome: EtcMaintCommands.PickOutcome, t: int)
      returns (r: Result<string>)
      requires repo.Valid() && "etc" in repo.heads && "master" in repo.heads
      requires results.etcRemoved == [] && results.userUpdates == []
      requires results.pkgAddEtc == [] && results.pkgAddMaster == [] && results.cherryPick == [] && results.btype == ""
      modifies repo, results
      ensures repo.Valid() && repo.tags == old(repo.tags) && old(repo.commits) <= repo.commits
      ensures dryRun ==> r == Err(PyError("AttributeError")) && repo.heads == old(repo.heads)
                         && repo.commits == old(repo.commits) && repo.curbranch == old(repo.curbranch)
      ensures r.Ok? ==> repo.curbranch == Some("master")
      ensures r.Ok? ==>
                && r.value == results.Str()
                && (results.btype == "-tmp" <==> results.cherryPick != [])
                && (EndsWith(r.value, NoFilesToSync) <==> results.cherryPick == [])
      ensures r.Ok? && results.cherryPick == [] ==>
                repo.heads.Keys == old(repo.heads.Keys) - TmpBranches && StampIn(repo.TreeOf("etc"), TimestampName) == Ok(t)
      ensures r.Ok? && results.cherryPick != [] ==> repo.heads.Keys == old(repo.heads.Keys) + TmpBranches
      ensures r.Ok? ==> FirstCommitFound(revList, status)
    {
      var failed := InitCheck(repodir, dryRun, revList, status);
      if failed.Some? {
        return Err(failed.value);
      }
      r := UpdateAndReport(cache, live, etcFiles, outcome, t);
    }

    /** _cmd_update after GitRepo.init, then the report of cmd_update. */
    method UpdateAndReport(cache: seq<PkgFile>, live: map<Path, Option<Digest>>, etcFiles: seq<Path>,
                           outcome: EtcMaintCommands.PickOutcome, t: int)
      returns (r: Result<string>)
      requires !dryRun
      requires repo.Valid() && "etc" in repo.heads && "master" in repo.heads
      requires results.etcRemoved == [] && results.userUpdates == []
      requires results.pkgAddEtc == [] && results.pkgAddMaster == [] && results.cherryPick == [] && results.btype == ""
      modifies repo, results
      ensures repo.Valid() && repo.tags == old(repo.tags) && old(repo.commits) <= repo.commits
      ensures r.Ok? ==>
                && repo.curbranch == Some("master")
                && r.value == results.Str()
                && (results.btype == "-tmp" <==> results.cherryPick != [])
                && (EndsWith(r.value, NoFilesToSync) <==> results.cherryPick == [])
      ensures r.Ok? && results.cherryPick == [] ==>
                repo.heads.Keys == old(repo.heads.Keys) - TmpBranches && StampIn(repo.TreeOf("etc"), TimestampName) == Ok(t)
      ensures r.Ok? && results.cherryPick != [] ==> repo.heads.Keys == old(repo.heads.Keys) + TmpBranches
    {
      var updated := UpdateBranches(cache, live, etcFiles, outcome, t);
      if updated.Err? {
        return Err(updated.failure);
      }
      var report := PrintResults(repo.heads.Keys);
      r := Ok(report);
    }

    /**
     * The end of cmd_update: the branch type of the report's headers is
     * "-tmp" while master-tmp remains, and the report is printed.
     */
    method PrintResults(branches: set<string>) returns (s: string)
      requires results.btype == ""
      modifies results`btype
      ensures results.btype == (if "master-tmp" in branches then "-tmp" else "")
      ensures s == results.Str()
      ensures EndsWith(s, NoFilesToSync) <==> results.cherryPick == []
    {
      if "master-tmp" in branches {
        results.btype := "-tmp";
      }
      s := results.Str();
    }
  }
}
