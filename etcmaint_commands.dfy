/**
 * The update command of etcmaint/etcmaint.py as it drives the repository:
 * the UpdateResults lists the decisions are appended to, and the EtcMaint
 * methods that fill them and commit to the temporary branches.
 */
module EtcMaintCommands {
  import opened Common
  import opened PyText
  import opened Digests
  import opened EtcMaintPath
  import opened GitStore
  import opened EtcMaintText
  import opened EtcMaintPackages
  import opened EtcMaintUpdate

  /** The header of the i-th list of __str__; the branch names end with branch_type. */
  function ReportHeader(branchType: string, i: nat): string
  {
    match i
    case 0 => "List of the new packages:"
    case 1 => "List of the files of the 'etc" + branchType + "' branch missing in /etc and removed from both branches:"
    case 2 => "List of the files of the 'master" + branchType + "' branch missing in /etc and removed from the master branch:"
    case 3 => "List of files added to the 'master" + branchType + "' branch:"
    case 4 => "List of files updated in the 'master" + branchType + "' branch:"
    case 5 => "List of files extracted from a package and added to the 'etc" + branchType + "' branch:"
    case 6 => "List of files extracted from a package and added to the 'master" + branchType + "' branch:"
    case _ => "List of files to sync to /etc:"
  }

  /** The lists of an update and the report printed from them. */
  class UpdateResults {
    var newPackages: seq<string>
    var etcRemoved: seq<Path>
    var masterRemoved: seq<Path>
    var userAdded: seq<Path>
    var userUpdated: seq<Path>
    var pkgAddEtc: seq<Path>
    var pkgAddMaster: seq<Path>
    var cherryPick: seq<Path>
    var branchType: string

    constructor ()
      ensures newPackages == etcRemoved == masterRemoved == userAdded == userUpdated == []
      ensures pkgAddEtc == pkgAddMaster == cherryPick == [] && branchType == ""
    {
      newPackages, etcRemoved, masterRemoved := [], [], [];
      userAdded, userUpdated := [], [];
      pkgAddEtc, pkgAddMaster, cherryPick := [], [], [];
      branchType := "";
    }

    /** The lists of __str__, in the order of the headers. */
    function Lists(): (l: seq<seq<string>>)
      reads this
      ensures |l| == 8
      ensures l[0] == newPackages && l[1] == etcRemoved && l[2] == masterRemoved && l[3] == userAdded
      ensures l[4] == userUpdated && l[5] == pkgAddEtc && l[6] == pkgAddMaster && l[7] == cherryPick
    {
      [newPackages, etcRemoved, masterRemoved, userAdded, userUpdated, pkgAddEtc, pkgAddMaster, cherryPick]
    }

    /**
     * __str__: the listings of the non-empty lists, separated by newlines;
     * the report is empty exactly when every list is.
     */
    function Report(): (r: string)
      reads this
      ensures var bt := branchType; r == Join("\n", Present(Listings((i: nat) => ReportHeader(bt, i), Lists())))
      ensures r == "" <==>
                newPackages == [] && etcRemoved == [] && masterRemoved == [] && userAdded == []
                && userUpdated == [] && pkgAddEtc == [] && pkgAddMaster == [] && cherryPick == []
    {
      var bt := branchType;
      var l, header := Lists(), (i: nat) => ReportHeader(bt, i);
      ReportOfListings(header, l);
      AddAll("", Listings(header, l))
    }
  }

  // ---------------------------------------------------------------------
  // new_packages: the report list of the archives chosen
  // ---------------------------------------------------------------------

  /** The file names of the chosen archives, as the report lists them. */
  function FileNames(pkgs: seq<PkgFile>): (r: seq<string>)
    ensures |r| == |pkgs| && forall k :: 0 <= k < |pkgs| ==> r[k] == pkgs[k].fileName
  {
    MapSeq(pkgs, (e: PkgFile) => e.fileName)
  }

  lemma FileNamesAppend(a: seq<PkgFile>, b: seq<PkgFile>)
    ensures FileNames(a + b) == FileNames(a) + FileNames(b)
  {
    MapSeqAppend(a, b, (e: PkgFile) => e.fileName);
  }

  /**
   * rslt.new_packages as written: each call that chooses archives
   * assigns the list, so the call for the AUR tree drops what the call
   * for the cache had listed.
   */
  function NewPackagesListedAsWritten(previous: seq<string>, names: seq<string>): seq<string>
  {
    if names == [] then previous else names
  }

  /** rslt.new_packages, each call extending the list. */
  function NewPackagesListed(previous: seq<string>, names: seq<string>): (r: seq<string>)
    ensures previous <= r && Elems(r) == Elems(previous) + Elems(names)
  {
    previous + names
  }

  /**
   * A cache archive and an AUR archive both new: the list as written
   * reports only the AUR one, the extended list reports both.
   */
  lemma AurScanDropsCachePackages()
    ensures var cache, aur := ["a-1-1-any.pkg.tar.xz"], ["b-1-1-any.pkg.tar.xz"];
            NewPackagesListedAsWritten(NewPackagesListedAsWritten([], cache), aur) == aur
            && "a-1-1-any.pkg.tar.xz" !in NewPackagesListedAsWritten(NewPackagesListedAsWritten([], cache), aur)
            && NewPackagesListed(NewPackagesListed([], cache), aur) == cache + aur
  {
  }

  /**
   * What new_packages chooses among the entries given the cursors: the
   * selection (the latest candidate archive of each name), the names in
   * the order they were first chosen, the chosen archives in that order,
   * and the new cursors, each past the previous one.
   */
  ghost predicate NewArchives(entries: seq<PkgFile>, cursor: map<string, int>, excludePkgs: seq<string>,
                              pkgs: seq<PkgFile>, selected: map<string, nat>, order: seq<string>,
                              timestamps: map<string, int>)
  {
    SelectionOf(entries, cursor, excludePkgs, selected)
    && order == FirstSeen(Candidates(entries, cursor, excludePkgs)) && Elems(order) == selected.Keys
    && |pkgs| == |order|
    && (forall k :: 0 <= k < |order| ==> pkgs[k] == entries[selected[order[k]]])
    && timestamps.Keys == selected.Keys
    && (forall n :: n in selected ==> timestamps[n] == entries[selected[n]].mtime)
    && (forall n :: n in timestamps && n in cursor ==> timestamps[n] > cursor[n])
  }

  /** new_pkgs.values(): the chosen archive of each name, in the order the names were first chosen. */
  method ChosenArchives(entries: seq<PkgFile>, selected: map<string, nat>, order: seq<string>)
    returns (pkgs: seq<PkgFile>)
    requires forall n :: n in order ==> n in selected && selected[n] < |entries|
    ensures |pkgs| == |order|
    ensures forall k :: 0 <= k < |order| ==> pkgs[k] == entries[selected[order[k]]]
    ensures forall e :: e in pkgs ==> e in entries
  {
    pkgs := [];
    var k := 0;
    while k < |order|
      invariant 0 <= k <= |order| && |pkgs| == k
      invariant forall j :: 0 <= j < k ==> pkgs[j] == entries[selected[order[j]]]
      invariant forall e :: e in pkgs ==> e in entries
    {
      pkgs := pkgs + [entries[selected[order[k]]]];
      k := k + 1;
    }
  }

  /**
   * The choice of new_packages, before anything is committed: it fails
   * exactly when a timestamps file it reads holds no number.
   */
  method ChooseArchives(entries: seq<PkgFile>, stamps: Tree, excludePkgs: seq<string>)
    returns (failed: bool, pkgs: seq<PkgFile>, ghost selected: map<string, nat>, ghost order: seq<string>,
             timestamps: map<string, int>)
    ensures failed <==> CursorFails(entries, stamps)
    ensures !failed ==> NewArchives(entries, Cursor(stamps), excludePkgs, pkgs, selected, order, timestamps)
    ensures timestamps == map[] ==> pkgs == []
    ensures forall e :: e in pkgs ==> e in entries
  {
    var sel, ord;
    failed, timestamps, sel, ord := NewPackages(entries, stamps, excludePkgs);
    selected, order := sel, ord;
    if failed {
      pkgs := [];
      return;
    }
    SelectionInRange(entries, Cursor(stamps), excludePkgs, sel);
    pkgs := ChosenArchives(entries, sel, ord);
    if ord != [] {
      assert ord[0] in sel;
    }
  }

  /**
   * What `git cherry-pick` of the commit of the files to cherry-pick does
   * to master-tmp: it applies cleanly, giving the tree of the new commit,
   * or it stops, with its output and the lines of `git status --porcelain`.
   * git's merge itself is not modelled.
   */
  datatype PickOutcome =
    | Applied(tree: Tree)
    | Stopped(stdout: string, status: seq<string>)

  /**
   * The first line of the instructions git_cherry_pick appends after
   * running the cherry-pick for the user to resolve: "conflict" takes an
   * "s" when there is more than one, and the repository is named unless
   * the current directory is inside it.
   */
  function ResolveHeading(conflicts: nat, cwdInRepo: bool, repodir: string): (h: string)
    ensures StartsWith(h, "Please resolve the conflict")
    ensures |h| > 27 && (h[27] == 's' <==> conflicts > 1)
    ensures h[|h| - 1] == '\n'
  {
    var plural := if conflicts > 1 then "s" else "";
    var place := if cwdInRepo then "" else " in " + repodir;
    var h := "Please resolve the conflict" + plural + place + "\n";
    assert h == "Please resolve the conflict" + (plural + place + "\n");
    assert (plural + place + "\n")[0] == if conflicts > 1 then 's' else if cwdInRepo then '\n' else ' ';
    h
  }

  /** The instructions, git's output of the cherry-pick indented by two. */
  function ResolveInstructions(conflicts: nat, cwdInRepo: bool, repodir: string, pickOutput: string): (r: string)
    ensures StartsWith(r, ResolveHeading(conflicts, cwdInRepo, repodir))
    ensures EndsWith(r, "and start over later with another 'etcmaint update' command\n")
  {
    var h := ResolveHeading(conflicts, cwdInRepo, repodir);
    var body := "*** WITHOUT CHANGING THE COMMIT MESSAGE ***\n"
      + "This is the result of the cherry-pick command:\n"
      + Join("\n", MapSeq(SplitLines(pickOutput), l => "  " + l)) + "\n"
      + "You may use 'git -C " + repodir + " cherry-pick --abort'\n";
    var tail := "and start over later with another 'etcmaint update' command\n";
    StartsWithAppend(h, body + tail);
    EndsWithConcat(h, body, tail);
    h + (body + tail)
  }

  /**
   * The message of git_cherry_pick after conflicts: the report, the list
   * of the files with a conflict, then, unless this is a dry run, the
   * instructions to resolve them.
   */
  function ConflictMessage(report: string, conflicts: seq<string>, dryRun: bool, cwdInRepo: bool, repodir: string,
                           pickOutput: string): (m: string)
    requires conflicts != []
    ensures StartsWith(m, report + "\n" + ConflictsHeader)
    ensures !dryRun ==> EndsWith(m, ResolveInstructions(|conflicts|, cwdInRepo, repodir, pickOutput))
  {
    var listing := StrFileList(ConflictsHeader, conflicts).value;
    var tail := if dryRun then "" else ResolveInstructions(|conflicts|, cwdInRepo, repodir, pickOutput);
    StrFileListStartsWithHeader(ConflictsHeader, conflicts);
    StartsWithConcat(report + "\n", listing, "\n" + tail, ConflictsHeader);
    EndsWithConcat(report + "\n" + listing, "\n", tail);
    report + "\n" + listing + ("\n" + tail)
  }

  /** The end of the error of a cherry-pick that stopped with no conflict. */
  const NoConflictsFound := "etcmaint internal error: no conflicts found"

  /** The header of the list of the files with a conflict. */
  const ConflictsHeader := "List of files with a conflict to resolve first:"

  // ---------------------------------------------------------------------
  // The sync command
  // ---------------------------------------------------------------------

  /** The files of the cherry-pick the sync command copies: not excluded, and present in /etc. */
  function SyncedFiles(picked: seq<Path>, excludeFiles: seq<Path>, live: map<Path, Digest>): (r: seq<Path>)
    ensures forall p :: p in r <==> p in picked && p !in excludeFiles && p in live
  {
    FilterMembers(picked, p => p !in excludeFiles && p in live);
    Filter(picked, p => p !in excludeFiles && p in live)
  }

  /**
   * /etc once the files synced are copied from master-tmp: each takes the
   * content of its master-tmp copy, a file master-tmp does not hold (the
   * copy fails with a warning) and every other file stay as they were.
   */
  function SyncedEtc(live: map<Path, Digest>, synced: seq<Path>, masterTree: Tree): (etc: map<Path, Digest>)
    ensures etc.Keys == live.Keys
    ensures forall p :: p in synced && p in live && p in masterTree && masterTree[p].Content? ==>
              etc[p] == masterTree[p].digest
    ensures forall p :: p in live && (p !in synced || p !in masterTree || !masterTree[p].Content?) ==> etc[p] == live[p]
  {
    map p | p in live :: if p in synced && p in masterTree && masterTree[p].Content? then masterTree[p].digest else live[p]
  }

  /** Syncing one more file changes /etc at that file only. */
  lemma SyncedEtcSnoc(live: map<Path, Digest>, synced: seq<Path>, masterTree: Tree, p: Path)
    requires p in live
    ensures SyncedEtc(live, synced + [p], masterTree) ==
              if p in masterTree && masterTree[p].Content? then SyncedEtc(live, synced, masterTree)[p := masterTree[p].digest]
              else SyncedEtc(live, synced, masterTree)
  {
    var before, after := SyncedEtc(live, synced, masterTree), SyncedEtc(live, synced + [p], masterTree);
    forall q | q in live
      ensures after[q] == (if q == p && p in masterTree && masterTree[p].Content? then masterTree[p].digest else before[q])
    {
      assert q in synced + [p] <==> q in synced || q == p;
    }
  }

  /** The copy loop of cmd_sync over the files of the cherry-pick. */
  method SyncLoop(picked: seq<Path>, excludeFiles: seq<Path>, live: map<Path, Digest>, masterTree: Tree, dryRun: bool)
    returns (synced: seq<Path>, etc: map<Path, Digest>)
    ensures synced == SyncedFiles(picked, excludeFiles, live)
    ensures etc == if dryRun then live else SyncedEtc(live, synced, masterTree)
  {
    synced, etc := [], live;
    assert SyncedEtc(live, [], masterTree) == live;
    var i := 0;
    while i < |picked|
      invariant 0 <= i <= |picked|
      invariant synced == Filter(picked[..i], p => p !in excludeFiles && p in live)
      invariant dryRun ==> etc == live
      invariant !dryRun ==> etc == SyncedEtc(live, synced, masterTree)
    {
      var rpath := picked[i];
      FilterSnoc(picked[..i], rpath, p => p !in excludeFiles && p in live);
      assert picked[..i + 1] == picked[..i] + [rpath];
      if rpath !in excludeFiles && rpath in live {
        SyncedEtcSnoc(live, synced, masterTree, rpath);
        if !dryRun && rpath in masterTree && masterTree[rpath].Content? {
          etc := etc[rpath := masterTree[rpath].digest];
        }
        synced := synced + [rpath];
      }
      i := i + 1;
    }
    assert picked[..i] == picked;
  }

  /** The names of the temporary branches. */
  const TmpBranches: set<string> := {"etc-tmp", "master-tmp", "timestamps-tmp"}

  /**
   * `git tag -f <branch>-prev <branch>` before a merge, run only when the
   * merge moves the branch (rev-list prints something).
   */
  function PrevTag(heads: map<string, nat>, branch: string, tmp: string, tag: string): (t: map<string, nat>)
    requires branch in heads && tmp in heads
    ensures t.Keys <= {tag}
    ensures tag in t <==> !SameCommit(heads, branch, tmp)
    ensures tag in t ==> t[tag] == heads[branch]
  {
    if SameCommit(heads, branch, tmp) then map[] else map[tag := heads[branch]]
  }

  /** A loop appending, in order, the names that `keep` accepts. */
  method SelectNames(names: seq<Path>, keep: Path -> bool) returns (selected: seq<Path>)
    ensures selected == Filter(names, keep)
  {
    selected := [];
    var i := 0;
    while i < |names|
      invariant 0 <= i <= |names|
      invariant selected == Filter(names[..i], keep)
    {
      FilterSnoc(names[..i], names[i], keep);
      assert names[..i + 1] == names[..i] + [names[i]];
      if keep(names[i]) {
        selected := selected + [names[i]];
      }
      i := i + 1;
    }
    assert names[..i] == names;
  }

  /**
   * The loop of copy_file calls over `files`: the first file that cannot
   * be read raises OSError; otherwise the copies, as commit changes.
   */
  method CopyFromEtc(live: map<Path, Digest>, files: seq<Path>) returns (r: Result<Tree>)
    ensures r.Ok? <==> forall p :: p in files ==> CopyFile(live, p).Ok?
    ensures r.Ok? ==> r.value == CopiedFromEtc(live, files)
    ensures r.Err? ==> r.failure == PyError("OSError")
  {
    var copied: Tree := map[];
    var i := 0;
    while i < |files|
      invariant 0 <= i <= |files|
      invariant forall p :: p in files[..i] ==> CopyFile(live, p).Ok?
      invariant copied == CopiedFromEtc(live, files[..i])
    {
      var c := CopyFile(live, files[i]);
      if c.Err? {
        return Err(c.failure);
      }
      assert files[..i + 1] == files[..i] + [files[i]];
      copied := copied[files[i] := c.value];
      i := i + 1;
    }
    assert files[..i] == files;
    r := Ok(copied);
  }

  /** tracked_files(branch) for etc-tmp or master-tmp: its files under etc, each once. */
  method TrackedFilesOf(repo: GitRepo, branch: string) returns (names: seq<Path>)
    requires repo.Valid() && branch in repo.heads
    ensures Distinct(names) && Elems(names) == EtcKeys(repo.TreeOf(branch))
  {
    var ls := repo.LsTree(branch);
    names := TrackedFiles(ls);
    TrackedFilesOfTree(ls, repo.TreeOf(branch));
  }

  /**
   * The update and sync commands. /etc is a parameter of the methods that
   * read it (the paths that exist there, each with its digest), and so are
   * the entries of the pacman cache and of the AUR tree.
   */
  class EtcMaint {
    const repo: GitRepo
    const results: UpdateResults
    const dryRun: bool
    const excludeFiles: seq<Path>   // the --exclude-prefixes, under etc
    const excludePkgs: seq<string>  // the --exclude-pkgs prefixes

    constructor (repo: GitRepo, dryRun: bool, excludeFiles: seq<Path>, excludePkgs: seq<string>)
      ensures this.repo == repo && this.dryRun == dryRun
      ensures this.excludeFiles == excludeFiles && this.excludePkgs == excludePkgs
      ensures fresh(results) && results.Lists() == [[], [], [], [], [], [], [], []]
    {
      this.repo, this.dryRun := repo, dryRun;
      this.excludeFiles, this.excludePkgs := excludeFiles, excludePkgs;
      results := new UpdateResults();
    }

    /**
     * The end of new_packages: when there are new timestamps, commit them
     * to the current branch and list the chosen archives in the report.
     */
    method CommitTimestamps(timestamps: map<string, int>, pkgs: seq<PkgFile>)
      requires repo.Valid() && repo.OnBranch()
      requires timestamps == map[] ==> pkgs == []
      modifies repo, results`newPackages
      ensures repo.Valid() && repo.OnlyMoved({old(repo.curbranch.value)}) && repo.curbranch == old(repo.curbranch)
      ensures repo.TreeOf(repo.curbranch.value) == old(repo.TreeOf(repo.curbranch.value)) + TimestampFiles(timestamps)
      ensures results.newPackages == NewPackagesListed(old(results.newPackages), FileNames(pkgs))
    {
      if timestamps != map[] {
        var _ := repo.Commit(TimestampFiles(timestamps));
        results.newPackages := NewPackagesListed(results.newPackages, FileNames(pkgs));
      } else {
        assert repo.TreeOf(repo.curbranch.value) + TimestampFiles(timestamps) == repo.TreeOf(repo.curbranch.value);
        assert NewPackagesListed(results.newPackages, FileNames(pkgs)) == results.newPackages;
      }
    }

    /**
     * new_packages(dir): choose the new archives among the entries, move
     * the cursor of each of their packages to the archive's mtime in
     * timestamps-tmp, list them in the report and return them in the
     * order their names were first chosen. Reading the timestamps file of
     * a package met among the entries fails as float() does when the file
     * holds no number.
     */
    method NewPackagesIn(entries: seq<PkgFile>)
      returns (r: Result<seq<PkgFile>>, ghost selected: map<string, nat>, ghost order: seq<string>,
               ghost timestamps: map<string, int>)
      requires repo.Valid() && "timestamps-tmp" in repo.heads
      modifies repo, results`newPackages
      ensures repo.Valid() && repo.OnlyMoved({"timestamps-tmp"}) && repo.curbranch == Some("timestamps-tmp")
      ensures r.Err? <==> CursorFails(entries, old(repo.TreeOf("timestamps-tmp")))
      ensures r.Err? ==> r.failure == PyError("ValueError") && repo.heads == old(repo.heads)
                         && results.newPackages == old(results.newPackages)
      ensures r.Ok? ==>
                NewArchives(entries, Cursor(old(repo.TreeOf("timestamps-tmp"))), excludePkgs,
                            r.value, selected, order, timestamps)
                && repo.TreeOf("timestamps-tmp") == old(repo.TreeOf("timestamps-tmp")) + TimestampFiles(timestamps)
                && results.newPackages == NewPackagesListed(old(results.newPackages), FileNames(r.value))
      ensures r.Ok? ==> forall e :: e in r.value ==> e in entries
    {
      selected, order, timestamps := map[], [], map[];
      var before := repo.TreeOf("timestamps-tmp");
      repo.Checkout("timestamps-tmp", false);
      var failed, pkgs, ts;
      failed, pkgs, selected, order, ts := ChooseArchives(entries, before, excludePkgs);
      if failed {
        r := Err(PyError("ValueError"));
        return;
      }
      timestamps := ts;
      CommitTimestamps(ts, pkgs);
      r := Ok(pkgs);
    }

    /**
     * The loop of scan_cachedir over the extracted files: a file whose
     * /etc copy cannot be read is skipped, a new file goes to pkg_add_etc
     * (and to pkg_add_master when /etc differs), an upgraded file goes to
     * pkg_add_etc when /etc has the new version and to cherry_pick when
     * it does not.
     */
    method ClassifyExtracted(x: Extraction, live: map<Path, Digest>, tracked: set<Path>)
      requires forall p :: p in x.order ==> p in x.prev
      modifies results`pkgAddEtc, results`pkgAddMaster, results`cherryPick
      ensures results.pkgAddEtc == old(results.pkgAddEtc) + PkgAddEtc(x.order, x, live, tracked)
      ensures results.pkgAddMaster == old(results.pkgAddMaster) + PkgAddMaster(x.order, x, live, tracked)
      ensures results.cherryPick == old(results.cherryPick) + CherryPicks(x.order, x, live, tracked)
    {
      var i := 0;
      while i < |x.order|
        invariant 0 <= i <= |x.order|
        invariant results.pkgAddEtc == old(results.pkgAddEtc) + PkgAddEtc(x.order[..i], x, live, tracked)
        invariant results.pkgAddMaster == old(results.pkgAddMaster) + PkgAddMaster(x.order[..i], x, live, tracked)
        invariant results.cherryPick == old(results.cherryPick) + CherryPicks(x.order[..i], x, live, tracked)
      {
        ClassifyNext(x.order[..i], x.order[i], x, live, tracked,
                     old(results.pkgAddEtc), old(results.pkgAddMaster), old(results.cherryPick));
        assert x.order[..i + 1] == x.order[..i] + [x.order[i]];
        i := i + 1;
      }
      assert x.order[..i] == x.order;
    }

    /** One more file of the loop: the lists grow by the file's verdict. */
    method ClassifyNext(done: seq<Path>, fname: Path, x: Extraction, live: map<Path, Digest>, tracked: set<Path>,
                        ghost etc0: seq<Path>, ghost master0: seq<Path>, ghost picks0: seq<Path>)
      requires fname in x.prev
      requires results.pkgAddEtc == etc0 + PkgAddEtc(done, x, live, tracked)
      requires results.pkgAddMaster == master0 + PkgAddMaster(done, x, live, tracked)
      requires results.cherryPick == picks0 + CherryPicks(done, x, live, tracked)
      modifies results`pkgAddEtc, results`pkgAddMaster, results`cherryPick
      ensures results.pkgAddEtc == etc0 + PkgAddEtc(done + [fname], x, live, tracked)
      ensures results.pkgAddMaster == master0 + PkgAddMaster(done + [fname], x, live, tracked)
      ensures results.cherryPick == picks0 + CherryPicks(done + [fname], x, live, tracked)
    {
      ClassifyStep(done, fname, x, live, tracked);
      ghost var etc, master, picks := results.pkgAddEtc, results.pkgAddMaster, results.cherryPick;
      ClassifyOne(fname, x, live, tracked);
      AppendAssoc(etc0, PkgAddEtc(done, x, live, tracked), results.pkgAddEtc[|etc|..]);
      AppendAssoc(master0, PkgAddMaster(done, x, live, tracked), results.pkgAddMaster[|master|..]);
      AppendAssoc(picks0, CherryPicks(done, x, live, tracked), results.cherryPick[|picks|..]);
    }

    /** The body of the loop for one file, from its digests. */
    method ClassifyOne(fname: Path, x: Extraction, live: map<Path, Digest>, tracked: set<Path>)
      requires fname in x.prev
      modifies results`pkgAddEtc, results`pkgAddMaster, results`cherryPick
      ensures results.pkgAddEtc == old(results.pkgAddEtc)
                + (if AddsToEtc(VerdictAt(fname, x, live, tracked)) then [fname] else [])
      ensures results.pkgAddMaster == old(results.pkgAddMaster)
                + (if VerdictAt(fname, x, live, tracked) == Installed(true) then [fname] else [])
      ensures results.cherryPick == old(results.cherryPick)
                + (if VerdictAt(fname, x, live, tracked).ToCherryPick? then [fname] else [])
    {
      var repoD, etcD := DigestIn(x.work, fname), LiveDigest(live, fname);
      if etcD == Unreadable {
        // warn('skip ...: not readable')
      } else if fname !in tracked {
        results.pkgAddEtc := results.pkgAddEtc + [fname];
        if !Same(etcD, repoD) {
          results.pkgAddMaster := results.pkgAddMaster + [fname];
        }
      } else if Same(etcD, repoD) {
        if !Same(x.prev[fname], repoD) {
          results.pkgAddEtc := results.pkgAddEtc + [fname];
        }
      } else if !Same(x.prev[fname], repoD) {
        results.cherryPick := results.cherryPick + [fname];
      }
    }

    /**
     * The packages scan_cachedir extracts: the new archives of the cache,
     * then those of the AUR tree when there is one.
     */
    method NewArchivesOf(cache: seq<PkgFile>, aur: Option<seq<PkgFile>>) returns (r: Result<seq<PkgFile>>)
      requires repo.Valid() && "timestamps-tmp" in repo.heads
      modifies repo, results`newPackages
      ensures repo.Valid() && repo.OnlyMoved({"timestamps-tmp"})
      ensures r.Ok? ==> forall e :: e in r.value ==> e in cache || (aur.Some? && e in aur.value)
      ensures r.Ok? ==> results.newPackages == old(results.newPackages) + FileNames(r.value)
      ensures r.Err? ==> r.failure == PyError("ValueError")
    {
      var packages, _, _, _ := NewPackagesIn(cache);
      if packages.Err? || aur.None? {
        return packages;
      }
      var more := ArchivesOf(aur.value);
      if more.Err? {
        return more;
      }
      FileNamesAppend(packages.value, more.value);
      AppendAssoc(old(results.newPackages), FileNames(packages.value), FileNames(more.value));
      r := Ok(packages.value + more.value);
    }

    /** new_packages(dir) as scan_cachedir uses it: the new archives among the entries, listed in the report. */
    method ArchivesOf(entries: seq<PkgFile>) returns (r: Result<seq<PkgFile>>)
      requires repo.Valid() && "timestamps-tmp" in repo.heads
      modifies repo, results`newPackages
      ensures repo.Valid() && repo.OnlyMoved({"timestamps-tmp"})
      ensures r.Ok? ==> forall e :: e in r.value ==> e in entries
      ensures r.Ok? ==> results.newPackages == old(results.newPackages) + FileNames(r.value)
      ensures r.Err? ==> r.failure == PyError("ValueError")
    {
      ghost var selected, order, timestamps;
      r, selected, order, timestamps := NewPackagesIn(entries);
    }

    /**
     * scan_cachedir: choose the new archives, extract them into the
     * etc-tmp working tree and classify the extracted files against /etc
     * and etc-tmp.
     */
    method ScanCachedir(cache: seq<PkgFile>, aur: Option<seq<PkgFile>>, live: map<Path, Digest>)
      returns (r: Result<Extraction>, ghost pkgs: seq<PkgFile>)
      requires repo.Valid() && "etc-tmp" in repo.heads && "timestamps-tmp" in repo.heads
      modifies repo, results`newPackages, results`pkgAddEtc, results`pkgAddMaster, results`cherryPick
      ensures repo.Valid() && repo.OnlyMoved({"timestamps-tmp"})
      ensures r.Ok? ==> repo.curbranch == Some("etc-tmp")
      ensures r.Ok? ==> forall e :: e in pkgs ==> e in cache || (aur.Some? && e in aur.value)
      ensures r.Ok? ==> results.newPackages == old(results.newPackages) + FileNames(pkgs)
      ensures r.Ok? ==> r.value == ExtractAll(old(repo.TreeOf("etc-tmp")), pkgs, excludeFiles)
      ensures r.Ok? ==> var x, tracked := r.value, EtcKeys(old(repo.TreeOf("etc-tmp")));
                results.pkgAddEtc == old(results.pkgAddEtc) + PkgAddEtc(x.order, x, live, tracked)
                && results.pkgAddMaster == old(results.pkgAddMaster) + PkgAddMaster(x.order, x, live, tracked)
                && results.cherryPick == old(results.cherryPick) + CherryPicks(x.order, x, live, tracked)
      ensures r.Err? ==> r.failure == PyError("ValueError")
      ensures r.Err? ==> unchanged(results`pkgAddEtc, results`pkgAddMaster, results`cherryPick)
    {
      pkgs := [];
      var etcTracked := TrackedFilesOf(repo, "etc-tmp");
      var work := repo.TreeOf("etc-tmp");
      var packages := NewArchivesOf(cache, aur);
      if packages.Err? {
        return Err(packages.failure), pkgs;
      }
      pkgs := packages.value;
      repo.Checkout("etc-tmp", false);
      var x := ExtractAndClassify(packages.value, work, Elems(etcTracked), live);
      r := Ok(x);
    }

    /**
     * scan(packages, etc_tracked) on the etc-tmp working tree `work`, then
     * the classification of what it extracted.
     */
    method ExtractAndClassify(pkgs: seq<PkgFile>, work: Tree, tracked: set<Path>, live: map<Path, Digest>)
      returns (x: Extraction)
      modifies results`pkgAddEtc, results`pkgAddMaster, results`cherryPick
      ensures x == ExtractAll(work, pkgs, excludeFiles)
      ensures results.pkgAddEtc == old(results.pkgAddEtc) + PkgAddEtc(x.order, x, live, tracked)
      ensures results.pkgAddMaster == old(results.pkgAddMaster) + PkgAddMaster(x.order, x, live, tracked)
      ensures results.cherryPick == old(results.cherryPick) + CherryPicks(x.order, x, live, tracked)
    {
      var modes;
      x, modes := Scan(pkgs, work, tracked, excludeFiles);
      ExtractAllEffect(work, pkgs, excludeFiles);
      ClassifyExtracted(x, live, tracked);
    }

    /**
     * `if files: self.repo.commit(files, msg)`: a commit on the current
     * branch of the changes to `files`, when there are any; returns the
     * commit.
     */
    method CommitFiles(files: seq<Path>, changes: Tree) returns (id: Option<nat>)
      requires repo.Valid() && repo.OnBranch()
      requires files == [] ==> changes == map[]
      modifies repo
      ensures repo.Valid() && repo.curbranch == old(repo.curbranch) && repo.OnlyMoved({repo.curbranch.value})
      ensures repo.TreeOf(repo.curbranch.value) == old(repo.TreeOf(repo.curbranch.value)) + changes
      ensures id.Some? <==> files != []
      ensures id.Some? ==> repo.heads[repo.curbranch.value] == id.value
    {
      if files != [] {
        var c := repo.Commit(changes);
        id := Some(c);
      } else {
        id := None;
        assert repo.TreeOf(repo.curbranch.value) + changes == repo.TreeOf(repo.curbranch.value);
      }
    }

    /**
     * git_upgraded_pkgs: scan the cache, commit to etc-tmp the files of
     * pkg_add_etc from the working tree, then those to cherry-pick in a
     * commit of their own, whose id is returned, and commit to master-tmp
     * the files of pkg_add_master copied from /etc.
     */
    method GitUpgradedPkgs(cache: seq<PkgFile>, aur: Option<seq<PkgFile>>, live: map<Path, Digest>)
      returns (r: Result<Option<nat>>, ghost x: Extraction)
      requires repo.Valid() && "etc-tmp" in repo.heads && "master-tmp" in repo.heads && "timestamps-tmp" in repo.heads
      modifies repo, results`newPackages, results`pkgAddEtc, results`pkgAddMaster, results`cherryPick
      ensures repo.Valid() && repo.OnlyMoved({"etc-tmp", "master-tmp", "timestamps-tmp"})
      ensures r.Ok? ==> repo.OnBranch()
      ensures r.Err? ==> r.failure == PyError("ValueError")
      ensures r.Ok? ==> var tracked := EtcKeys(old(repo.TreeOf("etc-tmp")));
                results.pkgAddEtc == old(results.pkgAddEtc) + PkgAddEtc(x.order, x, live, tracked)
                && results.pkgAddMaster == old(results.pkgAddMaster) + PkgAddMaster(x.order, x, live, tracked)
                && results.cherryPick == old(results.cherryPick) + CherryPicks(x.order, x, live, tracked)
      ensures r.Ok? ==> repo.TreeOf("etc-tmp") == old(repo.TreeOf("etc-tmp"))
                          + Restrict(x.work, Elems(results.pkgAddEtc)) + Restrict(x.work, Elems(results.cherryPick))
      ensures r.Ok? ==> repo.TreeOf("master-tmp") ==
                          old(repo.TreeOf("master-tmp")) + CopiedFromEtc(live, results.pkgAddMaster)
      ensures r.Ok? ==> (r.value.Some? <==> results.cherryPick != [])
      ensures r.Ok? && r.value.Some? ==> r.value == Some(repo.heads["etc-tmp"])
    {
      ghost var pkgs;
      ghost var etc0, master0 := repo.TreeOf("etc-tmp"), repo.TreeOf("master-tmp");
      var scanned;
      scanned, pkgs := ScanCachedir(cache, aur, live);
      x := Extraction([], map[], map[], map[]);
      if scanned.Err? {
        return Err(scanned.failure), x;
      }
      x := scanned.value;
      assert repo.TreeOf("etc-tmp") == etc0 && repo.TreeOf("master-tmp") == master0;
      var pick := CommitUpgrades(scanned.value.work, live);
      r := Ok(pick);
    }

    /**
     * The commits of git_upgraded_pkgs once the lists are built, the
     * extracted files being in the working tree `work` of etc-tmp.
     */
    method CommitUpgrades(work: Tree, live: map<Path, Digest>) returns (cherryPickCommit: Option<nat>)
      requires repo.Valid() && repo.curbranch == Some("etc-tmp") && "etc-tmp" in repo.heads && "master-tmp" in repo.heads
      modifies repo
      ensures repo.Valid() && repo.OnBranch() && repo.OnlyMoved({"etc-tmp", "master-tmp"})
      ensures repo.TreeOf("etc-tmp") == old(repo.TreeOf("etc-tmp")) + Restrict(work, Elems(results.pkgAddEtc))
                                                                    + Restrict(work, Elems(results.cherryPick))
      ensures repo.TreeOf("master-tmp") == old(repo.TreeOf("master-tmp")) + CopiedFromEtc(live, results.pkgAddMaster)
      ensures cherryPickCommit.Some? <==> results.cherryPick != []
      ensures cherryPickCommit.Some? ==> cherryPickCommit == Some(repo.heads["etc-tmp"])
    {
      cherryPickCommit := CommitEtcUpgrades(work);
      // git clean -d -x -f
      CommitMasterAdds(live);
    }

    /** The two etc-tmp commits of git_upgraded_pkgs; the second one is returned. */
    method CommitEtcUpgrades(work: Tree) returns (cherryPickCommit: Option<nat>)
      requires repo.Valid() && repo.curbranch == Some("etc-tmp") && "etc-tmp" in repo.heads
      modifies repo
      ensures repo.Valid() && repo.OnlyMoved({"etc-tmp"}) && repo.curbranch == Some("etc-tmp")
      ensures repo.TreeOf("etc-tmp") == old(repo.TreeOf("etc-tmp")) + Restrict(work, Elems(results.pkgAddEtc))
                                                                    + Restrict(work, Elems(results.cherryPick))
      ensures cherryPickCommit.Some? <==> results.cherryPick != []
      ensures cherryPickCommit.Some? ==> cherryPickCommit == Some(repo.heads["etc-tmp"])
    {
      var _ := CommitFiles(results.pkgAddEtc, Restrict(work, Elems(results.pkgAddEtc)));
      cherryPickCommit := CommitFiles(results.cherryPick, Restrict(work, Elems(results.cherryPick)));
    }

    /** The master-tmp commit of git_upgraded_pkgs: the files of pkg_add_master copied from /etc. */
    method CommitMasterAdds(live: map<Path, Digest>)
      requires repo.Valid() && repo.OnBranch() && "master-tmp" in repo.heads
      modifies repo
      ensures repo.Valid() && repo.OnBranch() && repo.OnlyMoved({"master-tmp"})
      ensures repo.TreeOf("master-tmp") == old(repo.TreeOf("master-tmp")) + CopiedFromEtc(live, results.pkgAddMaster)
    {
      if results.pkgAddMaster != [] {
        repo.Checkout("master-tmp", false);
        var _ := CommitFiles(results.pkgAddMaster, CopiedFromEtc(live, results.pkgAddMaster));
      } else {
        assert repo.TreeOf("master-tmp") + CopiedFromEtc(live, results.pkgAddMaster) == repo.TreeOf("master-tmp");
      }
    }

    /**
     * git_removed_files: remove from etc-tmp its tracked files missing in
     * /etc, then remove from master-tmp those of them it tracks and its
     * own tracked files missing in /etc. Returns the two ls-tree listings.
     */
    method GitRemovedFiles(live: map<Path, Digest>) returns (ghost etcTracked: seq<Path>, ghost masterTracked: seq<Path>)
      requires repo.Valid() && repo.OnBranch() && "etc-tmp" in repo.heads && "master-tmp" in repo.heads
      modifies repo, results`etcRemoved, results`masterRemoved
      ensures repo.Valid() && repo.OnBranch() && repo.OnlyMoved({"etc-tmp", "master-tmp"})
      ensures Distinct(etcTracked) && Elems(etcTracked) == EtcKeys(old(repo.TreeOf("etc-tmp")))
      ensures Distinct(masterTracked) && Elems(masterTracked) == EtcKeys(old(repo.TreeOf("master-tmp")))
      ensures results.etcRemoved == old(results.etcRemoved) + EtcRemoved(etcTracked, live)
      ensures results.masterRemoved == old(results.masterRemoved) + MasterRemoved(masterTracked, live)
      ensures repo.TreeOf("etc-tmp") == Without(old(repo.TreeOf("etc-tmp")), Elems(results.etcRemoved))
      ensures repo.TreeOf("master-tmp") ==
                Without(old(repo.TreeOf("master-tmp")), Elems(MasterRemove(results.etcRemoved, masterTracked, live)))
    {
      etcTracked := RemovedFromEtc(live);
      ghost var etc1 := repo.TreeOf("etc-tmp");
      masterTracked := RemovedFromMaster(live);
      assert repo.TreeOf("etc-tmp") == etc1;
    }

    /** The etc-tmp half of git_removed_files. */
    method RemovedFromEtc(live: map<Path, Digest>) returns (ghost etcTracked: seq<Path>)
      requires repo.Valid() && repo.OnBranch() && "etc-tmp" in repo.heads
      modifies repo, results`etcRemoved
      ensures repo.Valid() && repo.OnBranch() && repo.OnlyMoved({"etc-tmp"})
      ensures Distinct(etcTracked) && Elems(etcTracked) == EtcKeys(old(repo.TreeOf("etc-tmp")))
      ensures results.etcRemoved == old(results.etcRemoved) + EtcRemoved(etcTracked, live)
      ensures repo.TreeOf("etc-tmp") == Without(old(repo.TreeOf("etc-tmp")), Elems(results.etcRemoved))
    {
      var etcNames := TrackedFilesOf(repo, "etc-tmp");
      etcTracked := etcNames;
      var missing := SelectNames(etcNames, p => p !in live);
      results.etcRemoved := results.etcRemoved + missing;
      RemoveFiles("etc-tmp", results.etcRemoved);
    }

    /** The master-tmp half of git_removed_files. */
    method RemovedFromMaster(live: map<Path, Digest>) returns (ghost masterTracked: seq<Path>)
      requires repo.Valid() && repo.OnBranch() && "master-tmp" in repo.heads
      modifies repo, results`masterRemoved
      ensures repo.Valid() && repo.OnBranch() && repo.OnlyMoved({"master-tmp"})
      ensures Distinct(masterTracked) && Elems(masterTracked) == EtcKeys(old(repo.TreeOf("master-tmp")))
      ensures results.masterRemoved == old(results.masterRemoved) + MasterRemoved(masterTracked, live)
      ensures repo.TreeOf("master-tmp") ==
                Without(old(repo.TreeOf("master-tmp")), Elems(MasterRemove(results.etcRemoved, masterTracked, live)))
    {
      var masterNames := TrackedFilesOf(repo, "master-tmp");
      masterTracked := masterNames;
      var masterRemove := SelectNames(results.etcRemoved, p => p in masterNames);
      var ownMissing := SelectNames(masterNames, p => p !in live);
      results.masterRemoved := results.masterRemoved + ownMissing;
      RemoveFiles("master-tmp", masterRemove + ownMissing);
    }

    /** `if files: checkout(branch); remove(files, msg)`. */
    method RemoveFiles(branch: string, files: seq<Path>)
      requires repo.Valid() && repo.OnBranch() && branch in repo.heads
      modifies repo
      ensures repo.Valid() && repo.OnBranch() && repo.OnlyMoved({branch})
      ensures repo.TreeOf(branch) == Without(old(repo.TreeOf(branch)), Elems(files))
    {
      if files != [] {
        repo.Checkout(branch, false);
        var _ := repo.Remove(Elems(files));
      } else {
        assert Without(repo.TreeOf(branch), Elems(files)) == repo.TreeOf(branch);
      }
    }

    /**
     * git_user_updates: list in user_added the /etc files that differ from
     * their etc-tmp copy and that master-tmp does not track, in
     * user_updated the /etc files tracked in master-tmp, not just added
     * from a package, that differ from their master-tmp copy; then copy
     * each list from /etc and commit it to master-tmp. `etcFiles` is the
     * listing of /etc, in the order the walk returned it.
     */
    method GitUserUpdates(etcFiles: seq<Path>, live: map<Path, Digest>) returns (r: Result<()>)
      requires repo.Valid() && repo.OnBranch() && "etc-tmp" in repo.heads && "master-tmp" in repo.heads
      modifies repo, results`userAdded, results`userUpdated
      ensures repo.Valid() && repo.curbranch == Some("master-tmp") && repo.OnlyMoved({"master-tmp"})
      ensures results.userAdded ==
                old(results.userAdded) + UserAdded(etcFiles, old(repo.TreeOf("etc-tmp")), old(repo.TreeOf("master-tmp")), live)
      ensures results.userUpdated ==
                old(results.userUpdated) + UserUpdated(etcFiles, old(repo.TreeOf("master-tmp")), results.pkgAddMaster, live)
      ensures r.Ok? <==> forall p :: p in results.userAdded + results.userUpdated ==> CopyFile(live, p).Ok?
      ensures r.Ok? ==> repo.TreeOf("master-tmp") == old(repo.TreeOf("master-tmp"))
                          + CopiedFromEtc(live, results.userAdded) + CopiedFromEtc(live, results.userUpdated)
      ensures r.Err? ==> r.failure == PyError("OSError")
      ensures old(results.userAdded) == [] && old(results.userUpdated) == [] ==>
                r.Ok? && repo.TreeOf("master-tmp") ==
                  MasterAfterUserUpdates(etcFiles, old(repo.TreeOf("etc-tmp")), old(repo.TreeOf("master-tmp")),
                                         results.pkgAddMaster, live)
    {
      ghost var added0, updated0 := results.userAdded, results.userUpdated;
      var etcTree, masterTree := repo.TreeOf("etc-tmp"), repo.TreeOf("master-tmp");
      ListUserUpdates(etcFiles, etcTree, masterTree, live);
      ghost var added := UserAdded(etcFiles, etcTree, masterTree, live);
      ghost var updated := UserUpdated(etcFiles, masterTree, results.pkgAddMaster, live);
      if added0 == [] && updated0 == [] {
        assert results.userAdded == added && results.userUpdated == updated;
        UserUpdatesCopy(etcFiles, etcTree, masterTree, results.pkgAddMaster, live);
      }
      r := CommitUserUpdates(live);
    }

    /** The two lists of git_user_updates, checking out etc-tmp then master-tmp as the source does. */
    method ListUserUpdates(etcFiles: seq<Path>, etcTree: Tree, masterTree: Tree, live: map<Path, Digest>)
      requires repo.Valid() && "etc-tmp" in repo.heads && "master-tmp" in repo.heads
      modifies repo`curbranch, results`userAdded, results`userUpdated
      ensures repo.curbranch == Some("master-tmp")
      ensures results.userAdded == old(results.userAdded) + UserAdded(etcFiles, etcTree, masterTree, live)
      ensures results.userUpdated == old(results.userUpdated) + UserUpdated(etcFiles, masterTree, results.pkgAddMaster, live)
    {
      repo.curbranch := Some("etc-tmp");
      var toCheck := SelectNames(etcFiles, p => p in EtcKeys(etcTree) && !Same(LiveDigest(live, p), DigestIn(etcTree, p)));
      var added := SelectNames(toCheck, p => p !in EtcKeys(masterTree) && LiveDigest(live, p) != Unreadable);
      results.userAdded := results.userAdded + added;
      repo.curbranch := Some("master-tmp");
      var pkgAddMaster := results.pkgAddMaster;
      var updated := SelectNames(etcFiles, p => p in EtcKeys(masterTree) && p !in pkgAddMaster
                                                 && LiveDigest(live, p) != Unreadable
                                                 && !Same(LiveDigest(live, p), DigestIn(masterTree, p)));
      results.userUpdated := results.userUpdated + updated;
    }

    /** Copy user_added from /etc and commit it, then the same for user_updated. */
    method CommitUserUpdates(live: map<Path, Digest>) returns (r: Result<()>)
      requires repo.Valid() && repo.OnBranch()
      modifies repo
      ensures repo.Valid() && repo.curbranch == old(repo.curbranch) && repo.OnlyMoved({repo.curbranch.value})
      ensures r.Ok? <==> forall p :: p in results.userAdded + results.userUpdated ==> CopyFile(live, p).Ok?
      ensures r.Ok? ==> repo.TreeOf(repo.curbranch.value) == old(repo.TreeOf(repo.curbranch.value))
                          + CopiedFromEtc(live, results.userAdded) + CopiedFromEtc(live, results.userUpdated)
      ensures r.Err? ==> r.failure == PyError("OSError")
    {
      r := CommitCopies(results.userAdded, live);
      if r.Err? {
        return;
      }
      r := CommitCopies(results.userUpdated, live);
    }

    /** `for name in files: copy_file(name, ...)` then `if files: commit(files, msg)`. */
    method CommitCopies(files: seq<Path>, live: map<Path, Digest>) returns (r: Result<()>)
      requires repo.Valid() && repo.OnBranch()
      modifies repo
      ensures repo.Valid() && repo.curbranch == old(repo.curbranch) && repo.OnlyMoved({repo.curbranch.value})
      ensures r.Ok? <==> forall p :: p in files ==> CopyFile(live, p).Ok?
      ensures r.Ok? ==> repo.TreeOf(repo.curbranch.value) == old(repo.TreeOf(repo.curbranch.value)) + CopiedFromEtc(live, files)
      ensures r.Err? ==> r.failure == PyError("OSError") && repo.heads == old(repo.heads)
    {
      var copied := CopyFromEtc(live, files);
      if copied.Err? {
        return Err(copied.failure);
      }
      var _ := CommitFiles(files, copied.value);
      r := Ok(());
    }

    // -------------------------------------------------------------------
    // The temporary branches
    // -------------------------------------------------------------------

    /**
     * create_tmp_branches: each of etc, master and timestamps gets a
     * fresh "-tmp" branch at its head, an older one being deleted first.
     */
    method CreateTmpBranches()
      requires repo.Valid() && "etc" in repo.heads && "master" in repo.heads && "timestamps" in repo.heads
      modifies repo
      ensures repo.Valid() && repo.commits == old(repo.commits) && repo.tags == old(repo.tags)
      ensures repo.heads == old(repo.heads)["etc-tmp" := old(repo.heads["etc"])]
                                           ["master-tmp" := old(repo.heads["master"])]
                                           ["timestamps-tmp" := old(repo.heads["timestamps"])]
      ensures repo.curbranch == Some("timestamps-tmp")
    {
      CreateTmpBranch("etc", "etc-tmp");
      CreateTmpBranch("master", "master-tmp");
      CreateTmpBranch("timestamps", "timestamps-tmp");
    }

    /** One turn of the loop of create_tmp_branches, `tmp` being the branch name with "-tmp" appended. */
    method CreateTmpBranch(branch: string, tmp: string)
      requires repo.Valid() && branch in repo.heads && "master" in repo.heads
      requires tmp != branch && tmp != "master"
      modifies repo
      ensures repo.Valid() && repo.commits == old(repo.commits) && repo.tags == old(repo.tags)
      ensures repo.heads == old(repo.heads)[tmp := old(repo.heads[branch])]
      ensures repo.curbranch == Some(tmp)
    {
      if tmp in repo.heads {
        repo.Checkout("master", false);
        repo.DeleteBranch(tmp);
      }
      repo.Checkout(branch, false);
      repo.Checkout(tmp, true);
    }

    /**
     * remove_tmp_branches: when master-tmp exists, leave any temporary
     * branch HEAD is on, then for master, etc and timestamps (unless this
     * is a dry run) tag master and etc as "-prev" when the merge moves them
     * and fast-forward each to its temporary branch; in every case delete
     * the three temporary branches.
     */
    method RemoveTmpBranches()
      requires repo.Valid()
      requires "master-tmp" in repo.heads ==>
                 "etc-tmp" in repo.heads && "timestamps-tmp" in repo.heads
                 && "master" in repo.heads && "etc" in repo.heads && "timestamps" in repo.heads
      modifies repo
      ensures repo.Valid() && repo.commits == old(repo.commits)
      ensures "master-tmp" !in old(repo.heads) ==>
                repo.heads == old(repo.heads) && repo.tags == old(repo.tags) && repo.curbranch == old(repo.curbranch)
      ensures "master-tmp" in old(repo.heads) && dryRun ==>
                repo.heads == old(repo.heads) - TmpBranches
                && repo.tags == old(repo.tags)
                && repo.curbranch == (if old(repo.curbranch) in {Some("master-tmp"), Some("etc-tmp"), Some("timestamps-tmp")}
                                      then Some("master") else old(repo.curbranch))
      ensures "master-tmp" in old(repo.heads) && !dryRun ==>
                repo.heads == old(repo.heads)["master" := old(repo.heads["master-tmp"])]
                                             ["etc" := old(repo.heads["etc-tmp"])]
                                             ["timestamps" := old(repo.heads["timestamps-tmp"])] - TmpBranches
                && repo.tags == old(repo.tags) + PrevTag(old(repo.heads), "master", "master-tmp", "master-prev")
                                               + PrevTag(old(repo.heads), "etc", "etc-tmp", "etc-prev")
                && repo.curbranch == Some("timestamps")
    {
      if "master-tmp" !in repo.heads {
        return;
      }
      if repo.curbranch in {Some("master-tmp"), Some("etc-tmp"), Some("timestamps-tmp")} {
        repo.Checkout("master", false);
      }
      if dryRun {
        DeleteTmpBranches();
      } else {
        MergeTmpBranches();
      }
    }

    /** The loop of remove_tmp_branches in a dry run: the branches are only deleted. */
    method DeleteTmpBranches()
      requires dryRun && repo.Valid() && "master-tmp" in repo.heads && "etc-tmp" in repo.heads && "timestamps-tmp" in repo.heads
      requires "master" in repo.heads && "etc" in repo.heads && "timestamps" in repo.heads
      requires repo.curbranch !in {Some("master-tmp"), Some("etc-tmp"), Some("timestamps-tmp")}
      modifies repo
      ensures repo.Valid() && repo.commits == old(repo.commits) && repo.tags == old(repo.tags)
      ensures repo.heads == old(repo.heads) - TmpBranches && repo.curbranch == old(repo.curbranch)
    {
      MergeTmpBranch("master", "master-tmp", Some("master-prev"));
      MergeTmpBranch("etc", "etc-tmp", Some("etc-prev"));
      MergeTmpBranch("timestamps", "timestamps-tmp", None);
    }

    /** The loop of remove_tmp_branches: tag, fast-forward and delete. */
    method MergeTmpBranches()
      requires !dryRun && repo.Valid() && "master-tmp" in repo.heads && "etc-tmp" in repo.heads && "timestamps-tmp" in repo.heads
      requires "master" in repo.heads && "etc" in repo.heads && "timestamps" in repo.heads
      requires repo.curbranch !in {Some("master-tmp"), Some("etc-tmp"), Some("timestamps-tmp")}
      modifies repo
      ensures repo.Valid() && repo.commits == old(repo.commits)
      ensures repo.heads == old(repo.heads)["master" := old(repo.heads["master-tmp"])]["etc" := old(repo.heads["etc-tmp"])]
                                           ["timestamps" := old(repo.heads["timestamps-tmp"])] - TmpBranches
      ensures repo.tags == old(repo.tags) + PrevTag(old(repo.heads), "master", "master-tmp", "master-prev")
                                          + PrevTag(old(repo.heads), "etc", "etc-tmp", "etc-prev")
      ensures repo.curbranch == Some("timestamps")
    {
      MergeTmpBranch("master", "master-tmp", Some("master-prev"));
      MergeTmpBranch("etc", "etc-tmp", Some("etc-prev"));
      MergeTmpBranch("timestamps", "timestamps-tmp", None);
    }

    /** One turn of the loop of remove_tmp_branches; `prevTag` is the tag of master and etc. */
    method MergeTmpBranch(branch: string, tmp: string, prevTag: Option<string>)
      requires repo.Valid() && branch in repo.heads && tmp in repo.heads && tmp != branch
      requires repo.curbranch != Some(tmp)
      modifies repo
      ensures repo.Valid() && repo.commits == old(repo.commits)
      ensures !dryRun ==> repo.heads == old(repo.heads)[branch := old(repo.heads[tmp])] - {tmp}
                          && repo.curbranch == Some(branch)
      ensures dryRun ==> repo.heads == old(repo.heads) - {tmp} && repo.curbranch == old(repo.curbranch)
      ensures repo.tags == if !dryRun && prevTag.Some? then old(repo.tags) + PrevTag(old(repo.heads), branch, tmp, prevTag.value)
                           else old(repo.tags)
    {
      if !dryRun {
        if prevTag.Some? && !SameCommit(repo.heads, branch, tmp) {
          repo.Tag(prevTag.value, branch);
        } else if prevTag.Some? {
          assert old(repo.tags) + PrevTag(old(repo.heads), branch, tmp, prevTag.value) == old(repo.tags);
        }
        repo.Checkout(branch, false);
        repo.Merge(tmp);
      }
      repo.DeleteBranch(tmp);
    }

    /**
     * git_cherry_pick: on a temporary "cherry-pick" branch started at
     * master-tmp, cherry-pick the commit of the files to cherry-pick. When
     * it applies, master-tmp is fast-forwarded to it unless this is a dry
     * run; when it stops on conflicts, the message lists them and, unless
     * this is a dry run, the cherry-pick is run again on master-tmp for
     * the user to resolve; when it stops with no conflict, that is an
     * internal error. The "cherry-pick" branch is deleted in every case.
     */
    method GitCherryPick(outcome: PickOutcome, pickOutput: string, cwdInRepo: bool, repodir: string)
      returns (r: Result<string>)
      requires repo.Valid() && "master-tmp" in repo.heads && "cherry-pick" !in repo.heads
      modifies repo, results`branchType
      ensures repo.Valid() && repo.curbranch == Some("master-tmp") && repo.OnlyMoved({"master-tmp"})
      ensures results.branchType == "-tmp"
      ensures outcome.Applied? && !dryRun ==> repo.TreeOf("master-tmp") == outcome.tree
      ensures outcome.Stopped? || dryRun ==> repo.heads == old(repo.heads)
      ensures r.Err? <==> outcome.Stopped? && ConflictPaths(outcome.status) == []
      ensures r.Err? ==> r.failure == EmtError(outcome.stdout + NoConflictsFound)
      ensures r.Ok? && outcome.Applied? ==> r.value == results.Report() + "\n"
      ensures r.Ok? && outcome.Stopped? ==>
                r.value == ConflictMessage(results.Report(), ConflictPaths(outcome.status), dryRun, cwdInRepo, repodir, pickOutput)
    {
      repo.Checkout("master-tmp", false);
      results.branchType := "-tmp";
      var report := results.Report();
      r := PickWithReport(report, outcome, pickOutput, cwdInRepo, repodir);
      assert results.Report() == report;
    }

    /** git_cherry_pick once the report of the update is written. */
    method PickWithReport(report: string, outcome: PickOutcome, pickOutput: string, cwdInRepo: bool, repodir: string)
      returns (r: Result<string>)
      requires repo.Valid() && repo.curbranch == Some("master-tmp") && "master-tmp" in repo.heads
      requires "cherry-pick" !in repo.heads
      modifies repo
      ensures repo.Valid() && repo.curbranch == Some("master-tmp") && repo.OnlyMoved({"master-tmp"})
      ensures outcome.Applied? && !dryRun ==> repo.TreeOf("master-tmp") == outcome.tree
      ensures outcome.Stopped? || dryRun ==> repo.heads == old(repo.heads)
      ensures r.Err? <==> outcome.Stopped? && ConflictPaths(outcome.status) == []
      ensures r.Err? ==> r.failure == EmtError(outcome.stdout + NoConflictsFound)
      ensures r.Ok? && outcome.Applied? ==> r.value == report + "\n"
      ensures r.Ok? && outcome.Stopped? ==>
                r.value == ConflictMessage(report, ConflictPaths(outcome.status), dryRun, cwdInRepo, repodir, pickOutput)
    {
      var conflicts := PickOnBranch(outcome);
      if outcome.Stopped? && conflicts == [] {
        return Err(EmtError(outcome.stdout + NoConflictsFound));
      } else if outcome.Applied? {
        return Ok(report + "\n");
      }
      r := Ok(ConflictMessage(report, conflicts, dryRun, cwdInRepo, repodir, pickOutput));
    }

    /**
     * The cherry-pick on its own branch, then back to master-tmp and the
     * branch deleted; returns the conflicts parsed from the status.
     */
    method PickOnBranch(outcome: PickOutcome) returns (conflicts: seq<string>)
      requires repo.Valid() && repo.curbranch == Some("master-tmp") && "master-tmp" in repo.heads
      requires "cherry-pick" !in repo.heads
      modifies repo
      ensures repo.Valid() && repo.curbranch == Some("master-tmp") && repo.OnlyMoved({"master-tmp"})
      ensures outcome.Applied? && !dryRun ==> repo.TreeOf("master-tmp") == outcome.tree
      ensures outcome.Stopped? || dryRun ==> repo.heads == old(repo.heads)
      ensures conflicts == if outcome.Stopped? then ConflictPaths(outcome.status) else []
    {
      match outcome {
        case Applied(tree) =>
          PickApplied(tree);
          conflicts := [];
        case Stopped(_, status) =>
          // `git cherry-pick --abort`, or `git reset --hard HEAD` when no conflict is found
          PickStopped();
          conflicts := ConflictPaths(status);
      }
    }

    /** The cherry-pick applied: commit on "cherry-pick", fast-forward master-tmp to it unless a dry run. */
    method PickApplied(tree: Tree)
      requires repo.Valid() && repo.curbranch == Some("master-tmp") && "master-tmp" in repo.heads
      requires "cherry-pick" !in repo.heads
      modifies repo
      ensures repo.Valid() && repo.curbranch == Some("master-tmp")
      ensures repo.commits == old(repo.commits) + [tree] && repo.tags == old(repo.tags)
      ensures repo.heads == if dryRun then old(repo.heads) else old(repo.heads)["master-tmp" := |old(repo.commits)|]
    {
      ghost var heads0 := repo.heads;
      repo.Checkout("cherry-pick", true);
      var id := repo.CommitTree(tree);
      if !dryRun {
        repo.Checkout("master-tmp", false);
        repo.Merge("cherry-pick");
        assert repo.heads - {"cherry-pick"} == heads0["master-tmp" := id];
      } else {
        assert repo.heads - {"cherry-pick"} == heads0;
      }
      repo.Checkout("master-tmp", false);
      repo.DeleteBranch("cherry-pick");
    }

    /** The cherry-pick stopped: git leaves no commit behind once aborted or reset. */
    method PickStopped()
      requires repo.Valid() && repo.curbranch == Some("master-tmp") && "master-tmp" in repo.heads
      requires "cherry-pick" !in repo.heads
      modifies repo
      ensures repo.Valid() && repo.curbranch == Some("master-tmp")
      ensures repo.commits == old(repo.commits) && repo.tags == old(repo.tags) && repo.heads == old(repo.heads)
    {
      ghost var heads0 := repo.heads;
      repo.Checkout("cherry-pick", true);
      assert repo.heads - {"cherry-pick"} == heads0;
      repo.Checkout("master-tmp", false);
      repo.DeleteBranch("cherry-pick");
    }

    // -------------------------------------------------------------------
    // update_repository
    // -------------------------------------------------------------------

    /**
     * The first part of update_repository: create the temporary branches
     * and commit to them the upgraded packages, the removed files and the
     * user changes. Returns the commit to cherry-pick, if any. Once the
     * user changes are committed, every readable /etc file that etc-tmp
     * tracks either is the same as its etc-tmp copy or is tracked in
     * master-tmp, provided the listing of /etc holds those files.
     */
    method UpdateTmpBranches(cache: seq<PkgFile>, aur: Option<seq<PkgFile>>, live: map<Path, Digest>, etcFiles: seq<Path>)
      returns (r: Result<Option<nat>>)
      requires repo.Valid() && "etc" in repo.heads && "master" in repo.heads && "timestamps" in repo.heads
      requires results.userAdded == [] && results.userUpdated == []
      modifies repo, results`newPackages, results`etcRemoved, results`masterRemoved, results`userAdded,
               results`userUpdated, results`pkgAddEtc, results`pkgAddMaster, results`cherryPick
      ensures repo.Valid() && repo.tags == old(repo.tags) && old(repo.commits) <= repo.commits
      ensures repo.heads.Keys == old(repo.heads.Keys) + TmpBranches
      ensures forall b :: b in old(repo.heads) && b !in TmpBranches ==> repo.heads[b] == old(repo.heads[b])
      ensures r.Err? ==> r.failure == PyError("ValueError") || r.failure == PyError("OSError")
      ensures r.Ok? ==> repo.OnBranch() && (r.value.Some? <==> results.cherryPick != [])
      ensures r.Ok? && ListingHolds(etcFiles, live, repo.TreeOf("etc-tmp")) ==>
                Agrees(live, repo.TreeOf("etc-tmp"), repo.TreeOf("master-tmp"), {})
    {
      CreateTmpBranches();
      r := CommitToTmpBranches(cache, aur, live, etcFiles);
    }

    /** The commits of update_repository to the temporary branches. */
    method CommitToTmpBranches(cache: seq<PkgFile>, aur: Option<seq<PkgFile>>, live: map<Path, Digest>, etcFiles: seq<Path>)
      returns (r: Result<Option<nat>>)
      requires repo.Valid() && repo.OnBranch() && "etc-tmp" in repo.heads && "master-tmp" in repo.heads && "timestamps-tmp" in repo.heads
      requires results.userAdded == [] && results.userUpdated == []
      modifies repo, results`newPackages, results`etcRemoved, results`masterRemoved, results`userAdded,
               results`userUpdated, results`pkgAddEtc, results`pkgAddMaster, results`cherryPick
      ensures repo.Valid() && repo.OnlyMoved(TmpBranches)
      ensures r.Err? ==> r.failure == PyError("ValueError") || r.failure == PyError("OSError")
      ensures r.Ok? ==> repo.OnBranch() && (r.value.Some? <==> results.cherryPick != [])
      ensures r.Ok? && ListingHolds(etcFiles, live, repo.TreeOf("etc-tmp")) ==>
                Agrees(live, repo.TreeOf("etc-tmp"), repo.TreeOf("master-tmp"), {})
    {
      ghost var x;
      var pick;
      pick, x := GitUpgradedPkgs(cache, aur, live);
      if pick.Err? {
        return Err(pick.failure);
      }
      var updated := RemovalsAndUserUpdates(live, etcFiles);
      if updated.Err? {
        return Err(updated.failure);
      }
      r := Ok(pick.value);
    }

    /** git_removed_files then git_user_updates, which re-establishes the agreement of /etc with the branches. */
    method RemovalsAndUserUpdates(live: map<Path, Digest>, etcFiles: seq<Path>) returns (r: Result<()>)
      requires repo.Valid() && repo.OnBranch() && "etc-tmp" in repo.heads && "master-tmp" in repo.heads
      requires results.userAdded == [] && results.userUpdated == []
      modifies repo, results`etcRemoved, results`masterRemoved, results`userAdded, results`userUpdated
      ensures repo.Valid() && repo.OnBranch() && repo.OnlyMoved({"etc-tmp", "master-tmp"})
      ensures r.Err? ==> r.failure == PyError("OSError")
      ensures r.Ok? && ListingHolds(etcFiles, live, repo.TreeOf("etc-tmp")) ==>
                Agrees(live, repo.TreeOf("etc-tmp"), repo.TreeOf("master-tmp"), {})
    {
      ghost var etcTracked, masterTracked := GitRemovedFiles(live);
      ghost var etcTree, masterTree := repo.TreeOf("etc-tmp"), repo.TreeOf("master-tmp");
      r := GitUserUpdates(etcFiles, live);
      assert repo.TreeOf("etc-tmp") == etcTree;
      if r.Ok? && ListingHolds(etcFiles, live, etcTree) {
        UserUpdatesRestoreAgreement(etcFiles, etcTree, masterTree, results.pkgAddMaster, live);
      }
    }

    /**
     * update_repository. With files to cherry-pick, the cherry-pick is
     * run and the temporary branches are left for the sync command (a dry
     * run removes them); otherwise master, etc and timestamps are
     * fast-forwarded to their temporary branches (a dry run only removes
     * those). A dry run that completes leaves every other branch and
     * every tag as it was.
     */
    method UpdateRepository(cache: seq<PkgFile>, aur: Option<seq<PkgFile>>, live: map<Path, Digest>, etcFiles: seq<Path>,
                            outcome: PickOutcome, pickOutput: string, cwdInRepo: bool, repodir: string)
      returns (r: Result<Option<string>>)
      requires repo.Valid() && "etc" in repo.heads && "master" in repo.heads && "timestamps" in repo.heads
      requires "cherry-pick" !in repo.heads
      requires results.userAdded == [] && results.userUpdated == []
      modifies repo, results`newPackages, results`etcRemoved, results`masterRemoved, results`userAdded,
               results`userUpdated, results`pkgAddEtc, results`pkgAddMaster, results`cherryPick, results`branchType
      ensures repo.Valid()
      ensures r.Err? ==> r.failure == PyError("ValueError") || r.failure == PyError("OSError")
                         || (outcome.Stopped? && r.failure == EmtError(outcome.stdout + NoConflictsFound))
      ensures r.Ok? ==> (r.value.Some? <==> results.cherryPick != [])
      ensures r.Ok? && dryRun ==> repo.heads == old(repo.heads) - TmpBranches && repo.tags == old(repo.tags)
      ensures r.Ok? && !dryRun && r.value.Some? ==>
                repo.heads.Keys == old(repo.heads.Keys) + TmpBranches
                && forall b :: b in old(repo.heads) && b !in TmpBranches ==> repo.heads[b] == old(repo.heads[b])
      ensures r.Ok? && !dryRun && r.value.None? ==>
                repo.heads.Keys == old(repo.heads.Keys) - TmpBranches && "etc" in repo.heads && "master" in repo.heads
                && (ListingHolds(etcFiles, live, repo.TreeOf("etc")) ==>
                      Agrees(live, repo.TreeOf("etc"), repo.TreeOf("master"), {}))
    {
      var pick := UpdateTmpBranches(cache, aur, live, etcFiles);
      if pick.Err? {
        return Err(pick.failure);
      }
      if pick.value.Some? {
        var msg := PickAndKeep(outcome, pickOutput, cwdInRepo, repodir);
        if msg.Err? {
          return Err(msg.failure);
        }
        r := Ok(Some(msg.value));
      } else {
        FastForward();
        r := Ok(None);
      }
    }

    /**
     * fast_forward: the branches take the trees of their temporary
     * branches, which are removed; a dry run only removes them.
     */
    method FastForward()
      requires repo.Valid()
      requires "etc-tmp" in repo.heads && "master-tmp" in repo.heads && "timestamps-tmp" in repo.heads
      requires "etc" in repo.heads && "master" in repo.heads && "timestamps" in repo.heads
      modifies repo
      ensures repo.Valid() && repo.commits == old(repo.commits)
      ensures dryRun ==> repo.heads == old(repo.heads) - TmpBranches && repo.tags == old(repo.tags)
      ensures !dryRun ==>
                repo.heads.Keys == old(repo.heads.Keys) - TmpBranches && "etc" in repo.heads && "master" in repo.heads
                && repo.TreeOf("etc") == old(repo.TreeOf("etc-tmp")) && repo.TreeOf("master") == old(repo.TreeOf("master-tmp"))
    {
      RemoveTmpBranches();
    }

    /** git_cherry_pick, then the temporary branches removed in a dry run. */
    method PickAndKeep(outcome: PickOutcome, pickOutput: string, cwdInRepo: bool, repodir: string) returns (r: Result<string>)
      requires repo.Valid() && "cherry-pick" !in repo.heads
      requires "etc-tmp" in repo.heads && "master-tmp" in repo.heads && "timestamps-tmp" in repo.heads
      requires "etc" in repo.heads && "master" in repo.heads && "timestamps" in repo.heads
      modifies repo, results`branchType
      ensures repo.Valid()
      ensures r.Err? ==> outcome.Stopped? && r.failure == EmtError(outcome.stdout + NoConflictsFound)
      ensures r.Ok? && dryRun ==> repo.heads == old(repo.heads) - TmpBranches && repo.tags == old(repo.tags)
      ensures r.Ok? && !dryRun ==> repo.OnlyMoved({"master-tmp"})
    {
      r := GitCherryPick(outcome, pickOutput, cwdInRepo, repodir);
      if r.Ok? && dryRun {
        ghost var heads1 := repo.heads;
        RemoveTmpBranches();
        assert repo.heads == heads1 - TmpBranches;
      }
    }

    /**
     * cmd_sync: find the cherry-pick in master-tmp from the output of
     * `git rev-list --format=%b master...master-tmp`, copy to /etc the
     * files `git diff-tree` lists for it (the excluded ones and those
     * missing in /etc skipped), then fast-forward the branches unless this
     * is a dry run. Returns the message, the files synced and /etc after.
     */
    method CmdSync(revList: string, diffTree: string, live: map<Path, Digest>)
      returns (r: Result<string>, synced: seq<Path>, etc: map<Path, Digest>)
      requires repo.Valid()
      requires "master-tmp" in repo.heads ==>
                 "etc-tmp" in repo.heads && "timestamps-tmp" in repo.heads
                 && "etc" in repo.heads && "master" in repo.heads && "timestamps" in repo.heads
      modifies repo
      ensures repo.Valid()
      ensures "master-tmp" !in old(repo.heads) ==>
                r == Ok("%sno file to sync to /etc") && synced == [] && etc == live && repo.heads == old(repo.heads)
      ensures "master-tmp" in old(repo.heads) ==> (r.Err? <==> PickedReference(SplitLines(revList), 0, None).None?)
      ensures r.Err? ==> r.failure == EmtError("cannot find a cherry-pick in master-tmp branch")
                         && synced == [] && etc == live && repo.heads == old(repo.heads)
      ensures "master-tmp" in old(repo.heads) && r.Ok? ==>
                r.value == "%s'sync' command terminated"
                && synced == SyncedFiles(SplitLines(diffTree), excludeFiles, live)
                && etc == (if dryRun then live else SyncedEtc(live, synced, old(repo.TreeOf("master-tmp"))))
      ensures "master-tmp" in old(repo.heads) && r.Ok? && dryRun ==> repo.heads == old(repo.heads)
      ensures "master-tmp" in old(repo.heads) && r.Ok? && !dryRun ==>
                repo.heads.Keys == old(repo.heads.Keys) - TmpBranches && "master" in repo.heads
                && repo.TreeOf("master") == old(repo.TreeOf("master-tmp"))
                && forall p :: p in synced && p in repo.TreeOf("master") && repo.TreeOf("master")[p].Content? ==>
                     p in etc && etc[p] == repo.TreeOf("master")[p].digest
    {
      synced, etc := [], live;
      if "master-tmp" !in repo.heads {
        return Ok("%sno file to sync to /etc"), synced, etc;
      }
      var commit := FindCherryPick(revList);
      if commit.Err? {
        return Err(commit.failure), synced, etc;
      }
      repo.Checkout("master-tmp", false);
      synced, etc := SyncLoop(SplitLines(diffTree), excludeFiles, live, repo.TreeOf("master-tmp"), dryRun);
      if !dryRun {
        FastForward();
      }
      r := Ok("%s'sync' command terminated");
    }
  }
}
