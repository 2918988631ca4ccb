/**
 * etcmaint.py, version 0.1: one global TIMESTAMP= file instead of the
 * per-package cursors, the /etc digests as Option values (None for a file
 * that is missing or cannot be read), a report built by appending to a
 * string, and a cherry-pick run on a branch of its own.
 */
module EtcMaintV01 {
  import opened Common
  import opened PyText
  import opened Digests
  import opened GitStore
  import opened EtcMaintText
  import opened EtcMaintPackages
  import opened EtcMaintUpdate
  import opened EtcLegacy
  import opened LegacyEngine
  import EtcMaintCommands

  /** Timestamp.fname */
  const TimestampName := ".etcmaint_timestamp"

  /** The temporary branches of an update. */
  const TmpBranchesV01: set<string> := {"etc-tmp", "master-tmp"}

  // ---------------------------------------------------------------------
  // GitRepo.init: the checks made before any command
  // ---------------------------------------------------------------------

  /**
   * The checks of GitRepo.init, from the output of `git rev-list
   * --max-parents=0 --format=%s master --`, the lines of `git status
   * --porcelain` and whether .git/CHERRY_PICK_HEAD exists: the second line
   * must be the first commit message (IndexError when there is none), the
   * work tree clean and no cherry-pick pending.
   */
  function InitCheckV01(repodir: string, revList: string, status: seq<string>, cherryPickHead: bool): (r: Option<Failure>)
    ensures r.None? <==>
      |SplitLines(revList)| >= 2 && SplitLines(revList)[1] == FirstCommitMsg && status == [] && !cherryPickHead
    ensures r == Some(PyError("IndexError")) <==> |SplitLines(revList)| < 2
  {
    var lines := SplitLines(revList);
    if |lines| < 2 then Some(PyError("IndexError"))
    else if lines[1] != FirstCommitMsg then
      Some(Abort("this is not an etcmaint repository\nfound as the first commit message:\n'"
        + lines[1] + "'\ninstead of the expected '" + FirstCommitMsg + "' message"))
    else if status != [] then
      Some(Abort("the " + repodir + " repository is not clean:\n" + Join("\n", status)))
    else if cherryPickHead then
      Some(Abort("The previous cherry-pick is empty, please use 'git reset'"))
    else None
  }

  /**
   * Every repository the current version accepts, v0.1 accepts too: it
   * only asks for a second line where the current version asks for
   * exactly two.
   */
  lemma InitChecksAgree(repodir: string, revList: string, status: seq<string>, cherryPickHead: bool)
    ensures InitCheck(repodir, Some(revList), status, cherryPickHead).None? ==>
              InitCheckV01(repodir, revList, status, cherryPickHead).None?
    ensures InitCheckV01(repodir, revList, status, cherryPickHead).None? ==>
              InitCheck(repodir, Some(revList), status, cherryPickHead).None? || |SplitLines(revList)| > 2
  {
  }

  // ---------------------------------------------------------------------
  // str_file_list and UpdateResults
  // ---------------------------------------------------------------------

  /** str_file_list: the header, then each file indented by two, in the order given; None for no file. */
  function StrFileListV01(header: string, files: seq<string>): (r: Option<string>)
    ensures r.None? <==> files == []
    ensures r.Some? ==> StartsWith(r.value, header + "\n")
  {
    if files == [] then None
    else
      var lines := [header] + MapSeq(files, f => "  " + f);
      assert Join("\n", lines) == header + "\n" + Join("\n", lines[1..]);
      StartsWithAppend(header + "\n", Join("\n", lines[1..]));
      Some(Join("\n", lines))
  }

  /** The lines of a listing read back as the header and the indented files. */
  lemma StrFileListV01Lines(header: string, files: seq<string>)
    requires files != [] && IsLine(header) && forall f :: f in files ==> IsLine(f)
    ensures SplitLines(StrFileListV01(header, files).value) == [header] + MapSeq(files, f => "  " + f)
  {
    var lines := [header] + MapSeq(files, f => "  " + f);
    forall l | l in lines
      ensures IsLine(l)
    {
      if l != header {
        var k :| 1 <= k < |lines| && lines[k] == l;
        var f := files[k - 1];
        assert f in files && l == "  " + f;
        assert forall j :: 2 <= j < |l| ==> l[j] == f[j - 2];
      }
    }
    SplitLinesJoin(lines);
  }

  /** The current version's listing is v0.1's listing of the sorted files. */
  lemma StrFileListSortsV01(header: string, files: seq<string>)
    ensures StrFileList(header, files) == StrFileListV01(header, Sort(files))
  {
    if files != [] {
      assert |multiset(Sort(files))| == |files|;
    }
  }

  /** The start of the headers of the two package lists. */
  const PkgListStart := "List of files extracted from a package and added to the"

  /** A header naming a branch: `start 'branch' branch:`. */
  function BranchHeader(start: string, branch: string): string
  {
    start + " '" + branch + "' branch:"
  }

  /** A header names one branch: two headers with the same start agree exactly when their branches do. */
  lemma BranchHeaderInjective(start: string, b1: string, b2: string)
    ensures BranchHeader(start, b1) == BranchHeader(start, b2) <==> b1 == b2
  {
    if BranchHeader(start, b1) == BranchHeader(start, b2) {
      var n := |start + " '"|;
      assert BranchHeader(start, b1)[n..n + |b1|] == b1;
      assert BranchHeader(start, b2)[n..n + |b2|] == b2;
    }
  }

  /** The header of the i-th list of __str__ as intended: the branch names end with btype. */
  function HeaderV01(btype: string, i: nat): string
  {
    match i
    case 0 => "List of files missing in /etc and removed from both branches:"
    case 1 => BranchHeader("List of files added to the", "master" + btype)
    case 2 => BranchHeader("List of files updated in the", "master" + btype)
    case 3 => BranchHeader(PkgListStart, "etc" + btype)
    case 4 => BranchHeader(PkgListStart, "master" + btype)
    case _ => "List of files to sync to /etc:"
  }

  /**
   * The headers as written: in the two package headers the part naming
   * the branch is a plain literal continuing an f-string, so its
   * "{btype}" is printed as is.
   */
  function HeaderV01AsWritten(btype: string, i: nat): string
  {
    match i
    case 3 => BranchHeader(PkgListStart, "etc{btype}")
    case 4 => BranchHeader(PkgListStart, "master{btype}")
    case _ => HeaderV01(btype, i)
  }

  /**
   * As written, the package headers name the branches "etc{btype}" and
   * "master{btype}", which differ from the intended ones for every btype,
   * "" and "-tmp" included.
   */
  lemma HeaderAsWrittenShowsPlaceholder(btype: string)
    requires btype != "{btype}"
    ensures HeaderV01AsWritten(btype, 3) != HeaderV01(btype, 3)
    ensures HeaderV01AsWritten(btype, 4) != HeaderV01(btype, 4)
  {
    BranchHeaderInjective(PkgListStart, "etc{btype}", "etc" + btype);
    BranchHeaderInjective(PkgListStart, "master{btype}", "master" + btype);
    assert ("etc" + btype)[3..] == btype && "etc{btype}"[3..] == "{btype}";
    assert ("master" + btype)[6..] == btype && "master{btype}"[6..] == "{btype}";
  }

  /** The listings of __str__, one per list, under the headers of btype. */
  function ListingsV01(btype: string, lists: seq<seq<string>>): (b: seq<Option<string>>)
    ensures |b| == |lists|
    ensures forall i :: 0 <= i < |lists| ==> b[i] == StrFileListV01(HeaderV01(btype, i), lists[i])
  {
    seq(|lists|, i requires 0 <= i < |lists| => StrFileListV01(HeaderV01(btype, i), lists[i]))
  }

  /**
   * add_list over the listings from an empty result gives the listings of
   * the non-empty lists joined by newlines, empty exactly when every list is.
   */
  lemma ReportOfListingsV01(btype: string, lists: seq<seq<string>>)
    ensures AddAll("", ListingsV01(btype, lists)) == Join("\n", Present(ListingsV01(btype, lists)))
    ensures AddAll("", ListingsV01(btype, lists)) == "" <==> forall i :: 0 <= i < |lists| ==> lists[i] == []
  {
    var b := ListingsV01(btype, lists);
    forall i | 0 <= i < |b| && b[i].Some?
      ensures b[i].value != ""
    {
      assert StartsWith(b[i].value, HeaderV01(btype, i) + "\n");
    }
    AddAllJoins(b);
    JoinPresentEmpty(b);
  }

  /** The lists of an update and the report string __str__ appends to. */
  class UpdateResults {
    var etcRemoved: seq<Path>
    var userAdded: seq<Path>
    var userUpdated: seq<Path>
    var pkgAddEtc: seq<Path>
    var pkgAddMaster: seq<Path>
    var cherryPick: seq<Path>
    var result: string
    var btype: string

    constructor ()
      ensures etcRemoved == userAdded == userUpdated == pkgAddEtc == pkgAddMaster == cherryPick == []
      ensures result == "" && btype == ""
    {
      etcRemoved, userAdded, userUpdated := [], [], [];
      pkgAddEtc, pkgAddMaster, cherryPick := [], [], [];
      result, btype := "", "";
    }

    /** The lists of __str__, in the order of the headers. */
    function Lists(): (l: seq<seq<string>>)
      reads this`etcRemoved, this`userAdded, this`userUpdated, this`pkgAddEtc, this`pkgAddMaster, this`cherryPick
      ensures |l| == 6
      ensures l[0] == etcRemoved && l[1] == userAdded && l[2] == userUpdated
      ensures l[3] == pkgAddEtc && l[4] == pkgAddMaster && l[5] == cherryPick
    {
      [etcRemoved, userAdded, userUpdated, pkgAddEtc, pkgAddMaster, cherryPick]
    }

    /** add_list: append the listing of `files`, after a newline when the result already holds text. */
    method AddListTo(files: seq<string>, header: string)
      modifies this`result
      ensures result == AddList(old(result), StrFileListV01(header, files))
    {
      var lines := StrFileListV01(header, files);
      if lines.Some? {
        if result != "" {
          result := result + "\n";
        }
        result := result + lines.value;
      }
    }

    /**
     * __str__: append the six listings to the result and return it. From
     * an empty result this is the listings of the non-empty lists joined
     * by newlines; a second call appends them once more.
     */
    method Str() returns (s: string)
      modifies this`result
      ensures result == AddAll(old(result), ListingsV01(btype, Lists())) && s == result
      ensures old(result) == "" ==> s == Join("\n", Present(ListingsV01(btype, Lists())))
      ensures old(result) == "" ==> (s == "" <==> forall i :: 0 <= i < 6 ==> Lists()[i] == [])
    {
      var lists, bt := Lists(), btype;
      ghost var b := ListingsV01(bt, lists);
      ghost var r0 := result;
      AddListTo(lists[0], HeaderV01(bt, 0));
      assert Lists() == lists && btype == bt;
      AddListTo(lists[1], HeaderV01(bt, 1));
      assert Lists() == lists && btype == bt;
      AddListTo(lists[2], HeaderV01(bt, 2));
      assert Lists() == lists && btype == bt;
      AddListTo(lists[3], HeaderV01(bt, 3));
      assert Lists() == lists && btype == bt;
      AddListTo(lists[4], HeaderV01(bt, 4));
      assert Lists() == lists && btype == bt;
      AddListTo(lists[5], HeaderV01(bt, 5));
      assert Lists() == lists && btype == bt;
      AddAllOfSix(r0, b, result);
      ReportOfListingsV01(bt, lists);
      s := result;
    }
  }

  /** add_list six times in a row is AddAll over the six blocks. */
  lemma AddAllOfSix(r0: string, b: seq<Option<string>>, r6: string)
    requires |b| == 6
    requires r6 == AddList(AddList(AddList(AddList(AddList(AddList(r0, b[0]), b[1]), b[2]), b[3]), b[4]), b[5])
    ensures AddAll(r0, b) == r6
  {
    var r1 := AddList(r0, b[0]);
    var r2 := AddList(r1, b[1]);
    var r3 := AddList(r2, b[2]);
    var r4 := AddList(r3, b[3]);
    var r5 := AddList(r4, b[4]);
    assert b[5..][1..] == [] && b[4..][1..] == b[5..] && b[3..][1..] == b[4..];
    assert b[2..][1..] == b[3..] && b[1..][1..] == b[2..] && b[1..] == b[1..];
    assert AddAll(r5, b[5..]) == r6;
    assert AddAll(r4, b[4..]) == r6;
    assert AddAll(r3, b[3..]) == r6;
    assert AddAll(r2, b[2..]) == r6;
    assert AddAll(r1, b[1..]) == r6;
  }

  // ---------------------------------------------------------------------
  // git_user_updates
  // ---------------------------------------------------------------------

  /** to_check_in_master: the listed /etc files tracked in etc-tmp whose digest differs from their etc-tmp copy. */
  function ToCheckV01(etcFiles: seq<Path>, etcTree: Tree, live: map<Path, Option<Digest>>): seq<Path>
  {
    Filter(etcFiles, p => p in etcTree && LiveOf(live, p) != RepoDigest(etcTree, p))
  }

  /** user_added: those of to_check_in_master that master-tmp does not track. */
  function UserAddedV01(etcFiles: seq<Path>, etcTree: Tree, masterTree: Tree, live: map<Path, Option<Digest>>): seq<Path>
  {
    Filter(ToCheckV01(etcFiles, etcTree, live), p => p !in masterTree)
  }

  /**
   * user_updated: the listed /etc files tracked in master-tmp, not just
   * added there from a package, whose digest differs from their
   * master-tmp copy (None, an unreadable file, differing from any copy).
   */
  function UserUpdatedV01(etcFiles: seq<Path>, masterTree: Tree, pkgAddMaster: seq<Path>,
                          live: map<Path, Option<Digest>>): seq<Path>
  {
    Filter(etcFiles, p => p in masterTree && p !in pkgAddMaster && LiveOf(live, p) != RepoDigest(masterTree, p))
  }

  /** The two lists in terms of the digests. */
  lemma UserUpdatesV01Members(etcFiles: seq<Path>, etcTree: Tree, masterTree: Tree, pkgAddMaster: seq<Path>,
                              live: map<Path, Option<Digest>>, p: Path)
    ensures p in UserAddedV01(etcFiles, etcTree, masterTree, live) <==>
              p in etcFiles && p in etcTree && p !in masterTree && LiveOf(live, p) != RepoDigest(etcTree, p)
    ensures p in UserUpdatedV01(etcFiles, masterTree, pkgAddMaster, live) <==>
              p in etcFiles && p in masterTree && p !in pkgAddMaster && LiveOf(live, p) != RepoDigest(masterTree, p)
  {
    FilterMembers(etcFiles, p => p in etcTree && LiveOf(live, p) != RepoDigest(etcTree, p));
    FilterMembers(ToCheckV01(etcFiles, etcTree, live), p => p !in masterTree);
    FilterMembers(etcFiles, p => p in masterTree && p !in pkgAddMaster && LiveOf(live, p) != RepoDigest(masterTree, p));
  }

  /** master-tmp after git_user_updates: the added files, then the updated ones, copied from /etc. */
  function MasterAfterUserUpdatesV01(etcFiles: seq<Path>, etcTree: Tree, masterTree: Tree, pkgAddMaster: seq<Path>,
                                     live: map<Path, Option<Digest>>): Tree
  {
    masterTree + LiveCopied(live, UserAddedV01(etcFiles, etcTree, masterTree, live))
               + LiveCopied(live, UserUpdatedV01(etcFiles, masterTree, pkgAddMaster, live))
  }

  /**
   * When the copies succeed, git_user_updates leaves every listed /etc
   * file that etc-tmp tracks either the same as its etc-tmp copy or
   * tracked in master-tmp, and every listed file master-tmp tracked (and
   * did not just receive from a package) the same as its master-tmp copy.
   */
  lemma UserUpdatesV01Restore(etcFiles: seq<Path>, etcTree: Tree, masterTree: Tree, pkgAddMaster: seq<Path>,
                              live: map<Path, Option<Digest>>)
    requires forall p :: p in UserAddedV01(etcFiles, etcTree, masterTree, live) ==> LiveOf(live, p).Some?
    requires forall p :: p in UserUpdatedV01(etcFiles, masterTree, pkgAddMaster, live) ==> LiveOf(live, p).Some?
    ensures var master' := MasterAfterUserUpdatesV01(etcFiles, etcTree, masterTree, pkgAddMaster, live);
      && (forall p :: p in etcFiles && p in etcTree ==> LiveOf(live, p) == RepoDigest(etcTree, p) || p in master')
      && (forall p :: p in etcFiles && p in masterTree && p !in pkgAddMaster ==> RepoDigest(master', p) == LiveOf(live, p))
  {
    var added := UserAddedV01(etcFiles, etcTree, masterTree, live);
    var updated := UserUpdatedV01(etcFiles, masterTree, pkgAddMaster, live);
    var master' := MasterAfterUserUpdatesV01(etcFiles, etcTree, masterTree, pkgAddMaster, live);
    forall p | p in etcFiles && p in etcTree
      ensures LiveOf(live, p) == RepoDigest(etcTree, p) || p in master'
    {
      UserUpdatesV01Members(etcFiles, etcTree, masterTree, pkgAddMaster, live, p);
    }
    forall p | p in etcFiles && p in masterTree && p !in pkgAddMaster
      ensures RepoDigest(master', p) == LiveOf(live, p)
    {
      UserUpdatesV01Members(etcFiles, etcTree, masterTree, pkgAddMaster, live, p);
      if p in updated {
        assert p in LiveCopied(live, updated);
      } else {
        assert p !in LiveCopied(live, added);
      }
    }
  }

  // ---------------------------------------------------------------------
  // git_upgraded_pkgs: what the commits leave in the branches
  // ---------------------------------------------------------------------

  /** etc-tmp after git_upgraded_pkgs: the commit of pkg_add_etc, then the one of cherry_pick, from the working tree. */
  function EtcAfterUpgradeV01(etc0: Tree, u: Unpacked, live: map<Path, Option<Digest>>): Tree
  {
    etc0 + Restrict(u.work, Elems(AddEtc(u.order, u, live, etc0.Keys)))
         + Restrict(u.work, Elems(Picks(u.order, u, live, etc0.Keys)))
  }

  /** master-tmp after git_upgraded_pkgs: the files of pkg_add_master copied from /etc. */
  function MasterAfterUpgradeV01(master0: Tree, u: Unpacked, live: map<Path, Option<Digest>>, tracked: set<Path>): Tree
  {
    master0 + LiveCopied(live, AddMaster(u.order, u, live, tracked))
  }

  /**
   * After the commits of git_upgraded_pkgs a file added to etc-tmp holds
   * the extracted content, which is the /etc content unless the file also
   * went to master-tmp as its /etc copy; a file to cherry-pick holds in
   * etc-tmp an extracted content that /etc does not have.
   */
  lemma UpgradeCommitsV01(etc0: Tree, master0: Tree, u: Unpacked, live: map<Path, Option<Digest>>, p: Path)
    requires forall q :: q in u.order ==> RepoDigest(u.work, q).Some?
    ensures var tracked := etc0.Keys;
      var etc', master' := EtcAfterUpgradeV01(etc0, u, live), MasterAfterUpgradeV01(master0, u, live, tracked);
      && (p in AddEtc(u.order, u, live, tracked) ==> RepoDigest(etc', p) == RepoDigest(u.work, p) != None)
      && (p in AddEtc(u.order, u, live, tracked) && p !in AddMaster(u.order, u, live, tracked) ==>
            RepoDigest(etc', p) == LiveOf(live, p))
      && (p in AddMaster(u.order, u, live, tracked) ==> RepoDigest(master', p) == LiveOf(live, p) != None)
      && (p in Picks(u.order, u, live, tracked) ==> RepoDigest(etc', p) == RepoDigest(u.work, p) != LiveOf(live, p))
  {
    var tracked := etc0.Keys;
    var addEtc, addMaster, picks := AddEtc(u.order, u, live, tracked), AddMaster(u.order, u, live, tracked),
                                    Picks(u.order, u, live, tracked);
    FilterMembers(u.order, p => AddsToEtc(LegacyVerdict(p, u, live, tracked)));
    FilterMembers(u.order, p => LegacyVerdict(p, u, live, tracked) == Installed(true));
    FilterMembers(u.order, p => LegacyVerdict(p, u, live, tracked).ToCherryPick?);
    if p in u.order {
      LegacyClassificationMembers(u, live, tracked, p);
      if p in addEtc || p in picks {
        OverlayRestrict(etc0, u.work, Elems(addEtc), Elems(picks), p);
      }
      if p in addMaster {
        assert p in LiveCopied(live, addMaster);
      }
    }
  }

  /** A path of `w` in either restriction reads in the overlay as in `w`. */
  lemma OverlayRestrict(t: Tree, w: Tree, a: set<Path>, b: set<Path>, p: Path)
    requires p in w && (p in a || p in b)
    ensures p in t + Restrict(w, a) + Restrict(w, b) && (t + Restrict(w, a) + Restrict(w, b))[p] == w[p]
  {
  }

  /**
   * The loop of scan_cachedir over the archives newer than the timestamp:
   * extract them over the etc-tmp working tree and sort the extracted
   * files into the three lists.
   */
  method ScanArchives(cache: seq<PkgFile>, timestamp: int, excludePkgs: seq<string>, excludeFiles: seq<Path>,
                      etc0: Tree, tracked: set<Path>, live: map<Path, Option<Digest>>)
    returns (addEtc: seq<Path>, addMaster: seq<Path>, picks: seq<Path>, u: Unpacked,
             ghost pkgs: seq<PkgFile>, ghost selected: map<string, nat>, ghost order: seq<string>)
    ensures LegacyArchives(cache, timestamp, excludePkgs, pkgs, selected, order)
    ensures u == UnpackAll(etc0, pkgs, excludeFiles)
    ensures addEtc == AddEtc(u.order, u, live, tracked)
    ensures addMaster == AddMaster(u.order, u, live, tracked)
    ensures picks == Picks(u.order, u, live, tracked)
  {
    var chosen;
    chosen, selected, order := ChooseLegacy(cache, timestamp, excludePkgs);
    pkgs := chosen;
    u := Unpack(chosen, etc0, excludeFiles);
    addEtc, addMaster, picks := SortExtracted(u, live, tracked);
  }

  // ---------------------------------------------------------------------
  // The commands
  // ---------------------------------------------------------------------

  /**
   * The update command of v0.1. /etc is a parameter of the methods that
   * read it: `live` maps the path of every regular file of / that the
   * repository may track to its digest (None when it cannot be read), and
   * `etcFiles` is list_files('/etc') under etc/. The pacman cache is a
   * parameter too.
   */
  class EtcMerger {
    const repo: GitRepo
    const results: UpdateResults
    const dryRun: bool
    const excludeFiles: seq<Path>
    const excludePkgs: seq<string>

    constructor (repo: GitRepo, dryRun: bool, excludeFiles: seq<Path>, excludePkgs: seq<string>)
      ensures this.repo == repo && this.dryRun == dryRun
      ensures this.excludeFiles == excludeFiles && this.excludePkgs == excludePkgs
      ensures fresh(results) && results.Lists() == [[], [], [], [], [], []]
      ensures results.result == "" && results.btype == ""
    {
      this.repo, this.dryRun := repo, dryRun;
      this.excludeFiles, this.excludePkgs := excludeFiles, excludePkgs;
      results := new UpdateResults();
    }

    /** Timestamp.value on etc-tmp: the working tree checked out on etc-tmp, then its timestamp file read. */
    method ReadTimestamp() returns (stamp: Result<int>)
      requires repo.Valid() && "etc-tmp" in repo.heads
      modifies repo
      ensures repo.Valid() && repo.curbranch == Some("etc-tmp")
      ensures repo.heads == old(repo.heads) && repo.commits == old(repo.commits) && repo.tags == old(repo.tags)
      ensures stamp == StampIn(repo.TreeOf("etc-tmp"), TimestampName)
    {
      repo.Checkout("etc-tmp", false);
      stamp := StampIn(repo.TreeOf("etc-tmp"), TimestampName);
    }

    /**
     * scan_cachedir once the timestamp of etc-tmp is read: extract the
     * archives newer than it into the etc-tmp working tree, and sort the
     * extracted files into the lists.
     */
    method ScanCachedir(cache: seq<PkgFile>, live: map<Path, Option<Digest>>, timestamp: int)
      returns (ghost pkgs: seq<PkgFile>, ghost selected: map<string, nat>, ghost order: seq<string>, u: Unpacked)
      requires repo.Valid() && "etc-tmp" in repo.heads
      requires results.pkgAddEtc == [] && results.pkgAddMaster == [] && results.cherryPick == []
      modifies results`pkgAddEtc, results`pkgAddMaster, results`cherryPick
      ensures var etc0 := repo.TreeOf("etc-tmp");
        && LegacyArchives(cache, timestamp, excludePkgs, pkgs, selected, order)
        && u == UnpackAll(etc0, pkgs, excludeFiles)
        && results.pkgAddEtc == AddEtc(u.order, u, live, etc0.Keys)
        && results.pkgAddMaster == AddMaster(u.order, u, live, etc0.Keys)
        && results.cherryPick == Picks(u.order, u, live, etc0.Keys)
    {
      var etcTracked := repo.LsTree("etc-tmp");
      ghost var etc0 := repo.TreeOf("etc-tmp");
      assert Elems(etcTracked) == etc0.Keys;
      var addEtc, addMaster, picks;
      addEtc, addMaster, picks, u, pkgs, selected, order :=
        ScanArchives(cache, timestamp, excludePkgs, excludeFiles, repo.TreeOf("etc-tmp"), Elems(etcTracked), live);
      results.pkgAddEtc := results.pkgAddEtc + addEtc;
      results.pkgAddMaster := results.pkgAddMaster + addMaster;
      results.cherryPick := results.cherryPick + picks;
    }

    /**
     * git_upgraded_pkgs: scan the cache, commit to etc-tmp the files of
     * pkg_add_etc from the working tree, then those to cherry-pick in a
     * commit of their own, whose id is returned, and commit to master-tmp
     * the files of pkg_add_master copied from /etc.
     */
    method GitUpgradedPkgs(cache: seq<PkgFile>, live: map<Path, Option<Digest>>)
      returns (r: Result<Option<nat>>, ghost pkgs: seq<PkgFile>, ghost selected: map<string, nat>,
               ghost order: seq<string>, ghost u: Unpacked)
      requires repo.Valid() && "etc-tmp" in repo.heads && "master-tmp" in repo.heads
      requires results.pkgAddEtc == [] && results.pkgAddMaster == [] && results.cherryPick == []
      modifies repo, results`pkgAddEtc, results`pkgAddMaster, results`cherryPick
      ensures repo.Valid() && repo.OnlyMoved(TmpBranchesV01)
      ensures var stamp := StampIn(old(repo.TreeOf("etc-tmp")), TimestampName);
        && (r.Err? <==> stamp.Err?)
        && (r.Err? ==> r.failure == stamp.failure && repo.heads == old(repo.heads))
      ensures r.Ok? ==>
        var etc0, master0 := old(repo.TreeOf("etc-tmp")), old(repo.TreeOf("master-tmp"));
        && repo.OnBranch()
        && results.pkgAddEtc == AddEtc(u.order, u, live, etc0.Keys)
        && results.pkgAddMaster == AddMaster(u.order, u, live, etc0.Keys)
        && results.cherryPick == Picks(u.order, u, live, etc0.Keys)
        && LegacyArchives(cache, StampIn(etc0, TimestampName).value, excludePkgs, pkgs, selected, order)
        && u == UnpackAll(etc0, pkgs, excludeFiles)
        && (forall q :: q in u.order ==> RepoDigest(u.work, q).Some?)
        && repo.TreeOf("etc-tmp") == EtcAfterUpgradeV01(etc0, u, live)
        && repo.TreeOf("master-tmp") == MasterAfterUpgradeV01(master0, u, live, etc0.Keys)
        && (r.value.Some? <==> results.cherryPick != [])
        && (r.value.Some? ==> r.value.value == repo.heads["etc-tmp"])
    {
      ghost var etc0 := repo.TreeOf("etc-tmp");
      pkgs, selected, order, u := [], map[], [], Unpacked([], map[], map[]);
      var stamp := ReadTimestamp();
      if stamp.Err? {
        return Err(stamp.failure), pkgs, selected, order, u;
      }
      var x;
      pkgs, selected, order, x := ScanCachedir(cache, live, stamp.value);
      u := x;
      FilterMembers(u.order, p => LegacyVerdict(p, u, live, etc0.Keys) == Installed(true));
      UnpackAllEffect(etc0, pkgs, excludeFiles);
      var pick := CommitUpgrades(x.work, live);
      r := Ok(pick);
    }

    /** The commits of git_upgraded_pkgs once the lists are built, the extracted files being in `work`. */
    method CommitUpgrades(work: Tree, live: map<Path, Option<Digest>>) returns (cherryPickCommit: Option<nat>)
      requires repo.Valid() && repo.curbranch == Some("etc-tmp") && "etc-tmp" in repo.heads && "master-tmp" in repo.heads
      requires forall p :: p in results.pkgAddMaster ==> LiveOf(live, p).Some?
      modifies repo
      ensures repo.Valid() && repo.OnBranch() && repo.OnlyMoved(TmpBranchesV01)
      ensures repo.TreeOf("etc-tmp") == old(repo.TreeOf("etc-tmp")) + Restrict(work, Elems(results.pkgAddEtc))
                                                                    + Restrict(work, Elems(results.cherryPick))
      ensures repo.TreeOf("master-tmp") == old(repo.TreeOf("master-tmp")) + LiveCopied(live, results.pkgAddMaster)
      ensures cherryPickCommit.Some? <==> results.cherryPick != []
      ensures cherryPickCommit.Some? ==> cherryPickCommit.value == repo.heads["etc-tmp"]
    {
      var _ := CommitListed(repo, results.pkgAddEtc, Restrict(work, Elems(results.pkgAddEtc)));
      cherryPickCommit := CommitListed(repo, results.cherryPick, Restrict(work, Elems(results.cherryPick)));
      // git clean -d -x -f
      CommitMasterAdds(live);
    }

    /** The master-tmp commit of git_upgraded_pkgs: the files of pkg_add_master copied from /etc. */
    method CommitMasterAdds(live: map<Path, Option<Digest>>)
      requires repo.Valid() && repo.OnBranch() && "master-tmp" in repo.heads
      requires forall p :: p in results.pkgAddMaster ==> LiveOf(live, p).Some?
      modifies repo
      ensures repo.Valid() && repo.OnBranch() && repo.OnlyMoved({"master-tmp"})
      ensures repo.TreeOf("master-tmp") == old(repo.TreeOf("master-tmp")) + LiveCopied(live, results.pkgAddMaster)
    {
      if results.pkgAddMaster != [] {
        repo.Checkout("master-tmp", false);
        var copies := CopyLive(live, results.pkgAddMaster);
        var _ := CommitListed(repo, results.pkgAddMaster, copies.value);
      } else {
        assert LiveCopied(live, results.pkgAddMaster) == map[];
        assert repo.TreeOf("master-tmp") + map[] == repo.TreeOf("master-tmp");
      }
    }

    /** git_removed_pkgs: the files of etc-tmp missing in /etc, removed from both branches. */
    method GitRemovedPkgs(live: map<Path, Option<Digest>>) returns (ghost etcTracked: seq<Path>)
      requires repo.Valid() && repo.OnBranch() && "etc-tmp" in repo.heads && "master-tmp" in repo.heads
      requires results.etcRemoved == []
      modifies repo, results`etcRemoved
      ensures repo.Valid() && repo.OnBranch() && repo.OnlyMoved(TmpBranchesV01)
      ensures Distinct(etcTracked) && Elems(etcTracked) == old(repo.TreeOf("etc-tmp")).Keys
      ensures results.etcRemoved == LegacyEtcRemoved(etcTracked, live, TimestampName)
      ensures repo.TreeOf("etc-tmp") == Without(old(repo.TreeOf("etc-tmp")), Elems(results.etcRemoved))
      ensures repo.TreeOf("master-tmp") == Without(old(repo.TreeOf("master-tmp")), Elems(results.etcRemoved))
    {
      var removed;
      removed, etcTracked := LegacyEngine.GitRemovedPkgs(repo, live, TimestampName);
      results.etcRemoved := results.etcRemoved + removed;
    }

    /**
     * git_user_updates: list the user changes against etc-tmp and
     * master-tmp, then copy user_added from /etc and commit it, then the
     * same for user_updated. Copying a file that cannot be read raises.
     */
    method GitUserUpdates(etcFiles: seq<Path>, live: map<Path, Option<Digest>>) returns (r: Result<()>)
      requires repo.Valid() && "etc-tmp" in repo.heads && "master-tmp" in repo.heads
      requires results.userAdded == [] && results.userUpdated == []
      modifies repo, results`userAdded, results`userUpdated
      ensures repo.Valid() && repo.curbranch == Some("master-tmp") && repo.OnlyMoved({"master-tmp"})
      ensures results.userAdded == UserAddedV01(etcFiles, old(repo.TreeOf("etc-tmp")), old(repo.TreeOf("master-tmp")), live)
      ensures results.userUpdated == UserUpdatedV01(etcFiles, old(repo.TreeOf("master-tmp")), results.pkgAddMaster, live)
      ensures r.Ok? <==> forall p :: p in results.userAdded + results.userUpdated ==> LiveOf(live, p).Some?
      ensures r.Err? ==> r.failure == PyError("OSError")
      ensures r.Ok? ==>
                repo.TreeOf("master-tmp") == MasterAfterUserUpdatesV01(etcFiles, old(repo.TreeOf("etc-tmp")), old(repo.TreeOf("master-tmp")),
                                          results.pkgAddMaster, live)
    {
      var added, updated := SelectUserChanges(etcFiles, live, results.pkgAddMaster);
      results.userAdded := results.userAdded + added;
      results.userUpdated := results.userUpdated + updated;
      r := CommitCopies(results.userAdded, live);
      if r.Err? {
        return;
      }
      r := CommitCopies(results.userUpdated, live);
    }

    /**
     * The comparisons of git_user_updates: with etc-tmp checked out, the
     * files that differ from it; with master-tmp checked out, those of
     * them it lacks (user_added), then the files, not in pkg_add_master,
     * that differ from master-tmp (user_updated).
     */
    method SelectUserChanges(etcFiles: seq<Path>, live: map<Path, Option<Digest>>, pkgAddMaster: seq<Path>)
      returns (added: seq<Path>, updated: seq<Path>)
      requires repo.Valid() && "etc-tmp" in repo.heads && "master-tmp" in repo.heads
      modifies repo
      ensures repo.Valid() && repo.curbranch == Some("master-tmp")
      ensures repo.heads == old(repo.heads) && repo.commits == old(repo.commits) && repo.tags == old(repo.tags)
      ensures added == UserAddedV01(etcFiles, old(repo.TreeOf("etc-tmp")), old(repo.TreeOf("master-tmp")), live)
      ensures updated == UserUpdatedV01(etcFiles, old(repo.TreeOf("master-tmp")), pkgAddMaster, live)
    {
      var etcTree, masterTree := repo.TreeOf("etc-tmp"), repo.TreeOf("master-tmp");
      repo.Checkout("etc-tmp", false);
      var toCheck := EtcMaintCommands.SelectNames(etcFiles, p => p in etcTree && LiveOf(live, p) != RepoDigest(etcTree, p));
      repo.Checkout("master-tmp", false);
      added := EtcMaintCommands.SelectNames(toCheck, p => p !in masterTree);
      updated := EtcMaintCommands.SelectNames(etcFiles, p => p in masterTree && p !in pkgAddMaster
                                                            && LiveOf(live, p) != RepoDigest(masterTree, p));
    }

    /** `for name in files: copy_from_etc(name, ...)` then `if files: commit(files, msg)`. */
    method CommitCopies(files: seq<Path>, live: map<Path, Option<Digest>>) returns (r: Result<()>)
      requires repo.Valid() && repo.OnBranch()
      modifies repo
      ensures repo.Valid() && repo.curbranch == old(repo.curbranch) && repo.OnlyMoved({repo.curbranch.value})
      ensures r.Ok? <==> forall p :: p in files ==> LiveOf(live, p).Some?
      ensures r.Ok? ==> repo.TreeOf(repo.curbranch.value) == old(repo.TreeOf(repo.curbranch.value)) + LiveCopied(live, files)
      ensures r.Err? ==> r.failure == PyError("OSError") && repo.heads == old(repo.heads)
    {
      var copied := CopyLive(live, files);
      if copied.Err? {
        return Err(copied.failure);
      }
      var _ := CommitListed(repo, files, copied.value);
      r := Ok(());
    }

    // -------------------------------------------------------------------
    // git_cherry_pick
    // -------------------------------------------------------------------

    /**
     * git_cherry_pick, as the later version of the tool does it: print the
     * report with the "-tmp" headers, run the cherry-pick on a branch of
     * its own, fast-forward master-tmp to it unless a dry run, and leave
     * the branch for master-tmp before deleting it. A cherry-pick that
     * stops returns the files with a conflict, and aborts when none is
     * found in the status.
     */
    method GitCherryPick(outcome: EtcMaintCommands.PickOutcome) returns (r: Result<seq<Path>>)
      requires repo.Valid() && "master-tmp" in repo.heads && "cherry-pick" !in repo.heads
      modifies repo, results`btype, results`result
      ensures repo.Valid() && repo.curbranch == Some("master-tmp") && repo.OnlyMoved({"master-tmp"})
      ensures results.btype == "-tmp" && results.result == AddAll(old(results.result), ListingsV01("-tmp", results.Lists()))
      ensures outcome.Applied? && !dryRun ==> repo.TreeOf("master-tmp") == outcome.tree
      ensures outcome.Stopped? || dryRun ==> repo.heads == old(repo.heads)
      ensures r.Err? <==> outcome.Stopped? && ConflictPaths(outcome.status) == []
      ensures r.Err? ==> r.failure == Abort(outcome.stdout + EtcMaintCommands.NoConflictsFound)
      ensures r.Ok? ==> r.value == if outcome.Stopped? then ConflictPaths(outcome.status) else []
    {
      PrintReport();
      r := PickOnBranch(outcome);
    }

    /** The start of git_cherry_pick: master-tmp checked out and the report printed with the "-tmp" headers. */
    method PrintReport()
      requires repo.Valid() && "master-tmp" in repo.heads
      modifies repo, results`btype, results`result
      ensures repo.Valid() && repo.curbranch == Some("master-tmp")
      ensures repo.heads == old(repo.heads) && repo.commits == old(repo.commits) && repo.tags == old(repo.tags)
      ensures results.btype == "-tmp" && results.result == AddAll(old(results.result), ListingsV01("-tmp", results.Lists()))
    {
      repo.Checkout("master-tmp", false);
      results.btype := "-tmp";
      var _ := results.Str();
    }

    /** The cherry-pick on its own branch, as the later version runs it; the conflicts when it stops. */
    method PickOnBranch(outcome: EtcMaintCommands.PickOutcome) returns (r: Result<seq<Path>>)
      requires repo.Valid() && repo.curbranch == Some("master-tmp") && "master-tmp" in repo.heads
      requires "cherry-pick" !in repo.heads
      modifies repo
      ensures repo.Valid() && repo.curbranch == Some("master-tmp") && repo.OnlyMoved({"master-tmp"})
      ensures outcome.Applied? && !dryRun ==> repo.TreeOf("master-tmp") == outcome.tree
      ensures outcome.Stopped? || dryRun ==> repo.heads == old(repo.heads)
      ensures r.Err? <==> outcome.Stopped? && ConflictPaths(outcome.status) == []
      ensures r.Err? ==> r.failure == Abort(outcome.stdout + EtcMaintCommands.NoConflictsFound)
      ensures r.Ok? ==> r.value == if outcome.Stopped? then ConflictPaths(outcome.status) else []
    {
      match outcome {
        case Applied(tree) =>
          PickApplied(tree);
          r := Ok([]);
        case Stopped(stdout, status) =>
          PickStopped();
          var conflicts := ConflictPaths(status);
          if conflicts == [] {
            return Err(Abort(stdout + EtcMaintCommands.NoConflictsFound));
          }
          r := Ok(conflicts);
      }
    }

    /**
     * git_cherry_pick as written: in a dry run whose cherry-pick applies,
     * HEAD stays on the "cherry-pick" branch, the `git branch --delete
     * cherry-pick` of the finally clause fails and the update aborts,
     * leaving that branch behind.
     */
    method GitCherryPickAsWritten(outcome: EtcMaintCommands.PickOutcome) returns (r: Result<seq<Path>>)
      requires repo.Valid() && "master-tmp" in repo.heads && "cherry-pick" !in repo.heads
      modifies repo, results`btype, results`result
      ensures repo.Valid() && results.btype == "-tmp"
      ensures outcome.Applied? && dryRun ==>
                r == Err(GitError("branch --delete cherry-pick"))
                && repo.curbranch == Some("cherry-pick")
                && repo.heads == old(repo.heads)["cherry-pick" := |old(repo.commits)|]
      ensures outcome.Applied? && !dryRun ==>
                r == Ok([]) && repo.curbranch == Some("master-tmp") && repo.OnlyMoved({"master-tmp"})
                && repo.TreeOf("master-tmp") == outcome.tree
      ensures outcome.Stopped? ==>
                repo.curbranch == Some("master-tmp") && repo.heads == old(repo.heads)
                && (r.Err? <==> ConflictPaths(outcome.status) == [])
                && (r.Ok? ==> r.value == ConflictPaths(outcome.status))
    {
      PrintReport();
      r := PickOnBranchAsWritten(outcome);
    }

    /** The cherry-pick on its own branch, as written. */
    method PickOnBranchAsWritten(outcome: EtcMaintCommands.PickOutcome) returns (r: Result<seq<Path>>)
      requires repo.Valid() && repo.curbranch == Some("master-tmp") && "master-tmp" in repo.heads
      requires "cherry-pick" !in repo.heads
      modifies repo
      ensures repo.Valid()
      ensures outcome.Applied? && dryRun ==>
                r == Err(GitError("branch --delete cherry-pick"))
                && repo.curbranch == Some("cherry-pick")
                && repo.heads == old(repo.heads)["cherry-pick" := |old(repo.commits)|]
      ensures outcome.Applied? && !dryRun ==>
                r == Ok([]) && repo.curbranch == Some("master-tmp") && repo.OnlyMoved({"master-tmp"})
                && repo.TreeOf("master-tmp") == outcome.tree
      ensures outcome.Stopped? ==>
                repo.curbranch == Some("master-tmp") && repo.heads == old(repo.heads)
                && (r.Err? <==> ConflictPaths(outcome.status) == [])
                && (r.Ok? ==> r.value == ConflictPaths(outcome.status))
    {
      match outcome {
        case Applied(tree) =>
          var applied := PickAppliedAsWritten(tree);
          if applied.Err? {
            return Err(applied.failure);
          }
          r := Ok([]);
        case Stopped(stdout, status) =>
          PickStopped();
          var conflicts := ConflictPaths(status);
          if conflicts == [] {
            return Err(Abort(stdout + EtcMaintCommands.NoConflictsFound));
          }
          r := Ok(conflicts);
      }
    }

    /** The cherry-pick applied: commit on "cherry-pick", back to master-tmp, fast-forward it unless a dry run. */
    method PickApplied(tree: Tree)
      requires repo.Valid() && repo.curbranch == Some("master-tmp") && "master-tmp" in repo.heads
      requires "cherry-pick" !in repo.heads
      modifies repo
      ensures repo.Valid() && repo.curbranch == Some("master-tmp")
      ensures repo.commits == old(repo.commits) + [tree] && repo.tags == old(repo.tags)
      ensures repo.heads == if dryRun then old(repo.heads) else old(repo.heads)["master-tmp" := |old(repo.commits)|]
    {
      ghost var heads0 := repo.heads;
      repo.Checkout("cherry-pick", true);
      var id := repo.CommitTree(tree);
      repo.Checkout("master-tmp", false);
      if !dryRun {
        repo.Merge("cherry-pick");
        assert repo.heads - {"cherry-pick"} == heads0["master-tmp" := id];
      } else {
        assert repo.heads - {"cherry-pick"} == heads0;
      }
      repo.DeleteBranch("cherry-pick");
    }

    /**
     * The cherry-pick applied, as written: only a real run goes back to
     * master-tmp, so in a dry run git refuses to delete the branch HEAD
     * is on.
     */
    method PickAppliedAsWritten(tree: Tree) returns (r: Result<()>)
      requires repo.Valid() && repo.curbranch == Some("master-tmp") && "master-tmp" in repo.heads
      requires "cherry-pick" !in repo.heads
      modifies repo
      ensures repo.Valid() && repo.commits == old(repo.commits) + [tree] && repo.tags == old(repo.tags)
      ensures !dryRun ==>
                r == Ok(()) && repo.curbranch == Some("master-tmp")
                && repo.heads == old(repo.heads)["master-tmp" := |old(repo.commits)|]
      ensures dryRun ==>
                r == Err(GitError("branch --delete cherry-pick")) && repo.curbranch == Some("cherry-pick")
                && repo.heads == old(repo.heads)["cherry-pick" := |old(repo.commits)|]
    {
      ghost var heads0 := repo.heads;
      repo.Checkout("cherry-pick", true);
      var id := repo.CommitTree(tree);
      if !dryRun {
        repo.Checkout("master-tmp", false);
        repo.Merge("cherry-pick");
      }
      // finally: `git branch --delete cherry-pick`
      if repo.curbranch == Some("cherry-pick") {
        return Err(GitError("branch --delete cherry-pick"));
      }
      assert repo.heads - {"cherry-pick"} == heads0["master-tmp" := id];
      repo.DeleteBranch("cherry-pick");
      r := Ok(());
    }

    /** The cherry-pick stopped: git leaves no commit behind once aborted or reset. */
    method PickStopped()
      requires repo.Valid() && repo.curbranch == Some("master-tmp") && "master-tmp" in repo.heads
      requires "cherry-pick" !in repo.heads
      modifies repo
      ensures repo.Valid() && repo.curbranch == Some("master-tmp")
      ensures repo.commits == old(repo.commits) && repo.tags == old(repo.tags) && repo.heads == old(repo.heads)
    {
      ghost var heads0 := repo.heads;
      repo.Checkout("cherry-pick", true);
      assert repo.heads - {"cherry-pick"} == heads0;
      repo.Checkout("master-tmp", false);
      repo.DeleteBranch("cherry-pick");
    }

    // -------------------------------------------------------------------
    // update_repository
    // -------------------------------------------------------------------

    /**
     * The end of a dry run as written: remove_tmp_branches, which
     * fast-forwards master and etc to the temporary branches before
     * deleting them.
     */
    method EndDryRunAsWritten()
      requires repo.Valid() && "etc-tmp" in repo.heads && "master-tmp" in repo.heads
      requires "etc" in repo.heads && "master" in repo.heads
      modifies repo
      ensures repo.Valid() && repo.commits == old(repo.commits) && repo.tags == old(repo.tags)
      ensures repo.heads == old(repo.heads)["master" := old(repo.heads["master-tmp"])]
                                           ["etc" := old(repo.heads["etc-tmp"])] - TmpBranchesV01
      ensures old(repo.heads["master-tmp"]) != old(repo.heads["master"]) ==> repo.heads["master"] != old(repo.heads["master"])
    {
      var _ := RemoveTmpBranches(repo);
    }

    /** The end of a dry run as the help text describes it: the temporary branches deleted, nothing merged. */
    method EndDryRun()
      requires repo.Valid() && "etc-tmp" in repo.heads && "master-tmp" in repo.heads && "master" in repo.heads
      modifies repo
      ensures repo.Valid() && repo.commits == old(repo.commits) && repo.tags == old(repo.tags)
      ensures repo.heads == old(repo.heads) - TmpBranchesV01 && repo.curbranch == Some("master")
    {
      repo.Checkout("master", false);
      repo.DeleteBranch("master-tmp");
      repo.DeleteBranch("etc-tmp");
      assert repo.heads == old(repo.heads) - TmpBranchesV01;
    }

    /**
     * The first part of update_repository: create the temporary branches,
     * commit to them the upgraded packages, the removed files and the user
     * changes. Returns the commit to cherry-pick, if any. Once the user
     * changes are committed, every listed /etc file that etc-tmp tracks
     * either is the same as its etc-tmp copy or is tracked in master-tmp.
     */
    method UpdateTmpBranches(cache: seq<PkgFile>, live: map<Path, Option<Digest>>, etcFiles: seq<Path>)
      returns (r: Result<Option<nat>>)
      requires repo.Valid() && "etc" in repo.heads && "master" in repo.heads
      requires results.Lists() == [[], [], [], [], [], []]
      modifies repo, results`etcRemoved, results`userAdded, results`userUpdated, results`pkgAddEtc,
               results`pkgAddMaster, results`cherryPick
      ensures repo.Valid() && repo.tags == old(repo.tags) && old(repo.commits) <= repo.commits
      ensures repo.heads.Keys == old(repo.heads.Keys) + TmpBranchesV01
      ensures forall b :: b in old(repo.heads) && b !in TmpBranchesV01 ==> repo.heads[b] == old(repo.heads[b])
      ensures r.Ok? ==>
                && repo.curbranch == Some("master-tmp")
                && (r.value.Some? <==> results.cherryPick != [])
                && (forall p :: p in etcFiles && p in repo.TreeOf("etc-tmp") ==>
                      LiveOf(live, p) == RepoDigest(repo.TreeOf("etc-tmp"), p) || p in repo.TreeOf("master-tmp"))
    {
      var pkgs := PackageUpdates(cache, live);
      if pkgs.Err? {
        return Err(pkgs.failure);
      }
      var user := RemovedAndUserUpdates(etcFiles, live);
      if user.Err? {
        return Err(user.failure);
      }
      r := Ok(pkgs.value);
    }

    /** The rest of the first part of update_repository: the removed files, then the user changes. */
    method RemovedAndUserUpdates(etcFiles: seq<Path>, live: map<Path, Option<Digest>>) returns (r: Result<()>)
      requires repo.Valid() && repo.OnBranch() && "etc-tmp" in repo.heads && "master-tmp" in repo.heads
      requires results.etcRemoved == [] && results.userAdded == [] && results.userUpdated == []
      modifies repo, results`etcRemoved, results`userAdded, results`userUpdated
      ensures repo.Valid() && repo.OnlyMoved(TmpBranchesV01)
      ensures r.Ok? ==>
                && repo.curbranch == Some("master-tmp")
                && (forall p :: p in etcFiles && p in repo.TreeOf("etc-tmp") ==>
                      LiveOf(live, p) == RepoDigest(repo.TreeOf("etc-tmp"), p) || p in repo.TreeOf("master-tmp"))
    {
      var _ := GitRemovedPkgs(live);
      ghost var etcTree, masterTree := repo.TreeOf("etc-tmp"), repo.TreeOf("master-tmp");
      r := GitUserUpdates(etcFiles, live);
      if r.Ok? {
        UserUpdatesV01Restore(etcFiles, etcTree, masterTree, results.pkgAddMaster, live);
      }
    }

    /**
     * The package part of update_repository: create the temporary
     * branches and commit the upgraded packages.
     */
    method PackageUpdates(cache: seq<PkgFile>, live: map<Path, Option<Digest>>) returns (r: Result<Option<nat>>)
      requires repo.Valid() && "etc" in repo.heads && "master" in repo.heads
      requires results.pkgAddEtc == [] && results.pkgAddMaster == [] && results.cherryPick == []
      modifies repo, results`pkgAddEtc, results`pkgAddMaster, results`cherryPick
      ensures repo.Valid() && repo.tags == old(repo.tags) && old(repo.commits) <= repo.commits
      ensures repo.heads.Keys == old(repo.heads.Keys) + TmpBranchesV01
      ensures forall b :: b in old(repo.heads) && b !in TmpBranchesV01 ==> repo.heads[b] == old(repo.heads[b])
      ensures r.Ok? ==> repo.OnBranch() && (r.value.Some? <==> results.cherryPick != [])
    {
      CreateTmpBranches(repo);
      ghost var heads1 := repo.heads;
      var upgraded, _, _, _, _ := GitUpgradedPkgs(cache, live);
      assert repo.heads.Keys == heads1.Keys && forall b :: b in heads1 && b !in TmpBranchesV01 ==> repo.heads[b] == heads1[b];
      if upgraded.Err? {
        return Err(upgraded.failure);
      }
      r := Ok(upgraded.value);
    }

    /**
     * The end of update_repository without a cherry-pick: a dry run drops
     * the temporary branches, a real run finalizes, the timestamp of etc
     * then reading back the time of the update.
     */
    method FinishUpdate(t: int) returns (r: Result<()>)
      requires repo.Valid() && "etc-tmp" in repo.heads && "master-tmp" in repo.heads
      requires "etc" in repo.heads && "master" in repo.heads
      modifies repo
      ensures repo.Valid() && repo.tags == old(repo.tags) && old(repo.commits) <= repo.commits
      ensures dryRun ==> r.Ok? && repo.heads == old(repo.heads) - TmpBranchesV01
      ensures !dryRun && r.Ok? ==>
                && repo.heads.Keys == old(repo.heads.Keys) - TmpBranchesV01
                && StampIn(repo.TreeOf("etc"), TimestampName) == Ok(t)
    {
      if dryRun {
        EndDryRun();
        return Ok(());
      }
      ghost var etcTree := repo.TreeOf("etc-tmp");
      r := Finalize(repo, t, TimestampName);
      if r.Ok? {
        FinalizedStampReadsBack(etcTree, t, TimestampName);
      }
    }

    /**
     * update_repository: the temporary branches updated, then either the
     * cherry-pick run (False: the temporary branches stay until the sync),
     * or a dry run's end, or finalize (True). The timestamp of etc then
     * reads back the time of the update.
     */
    method UpdateRepository(cache: seq<PkgFile>, live: map<Path, Option<Digest>>, etcFiles: seq<Path>,
                            outcome: EtcMaintCommands.PickOutcome, t: int)
      returns (r: Result<bool>)
      requires repo.Valid() && "etc" in repo.heads && "master" in repo.heads && "cherry-pick" !in repo.heads
      requires results.Lists() == [[], [], [], [], [], []]
      modifies repo, results
      ensures repo.Valid() && repo.tags == old(repo.tags) && old(repo.commits) <= repo.commits
      ensures r.Ok? ==> (r.value <==> results.cherryPick == [])
      ensures r.Ok? && !r.value ==>
                && repo.heads.Keys == old(repo.heads.Keys) + TmpBranchesV01
                && (forall b :: b in old(repo.heads) && b !in TmpBranchesV01 ==> repo.heads[b] == old(repo.heads[b]))
      ensures r.Ok? && r.value && dryRun ==> repo.heads == old(repo.heads) - TmpBranchesV01
      ensures r.Ok? && r.value && !dryRun ==>
                && repo.heads.Keys == old(repo.heads.Keys) - TmpBranchesV01
                && StampIn(repo.TreeOf("etc"), TimestampName) == Ok(t)
    {
      var pick := UpdateTmpBranches(cache, live, etcFiles);
      if pick.Err? {
        return Err(pick.failure);
      }
      r := PickOrFinish(pick.value.Some?, outcome, t);
    }

    /**
     * The second part of update_repository: the cherry-pick run when
     * cherry_pick is not empty, or else the end of the update.
     */
    method PickOrFinish(pick: bool, outcome: EtcMaintCommands.PickOutcome, t: int) returns (r: Result<bool>)
      requires repo.Valid() && "etc-tmp" in repo.heads && "master-tmp" in repo.heads
      requires "etc" in repo.heads && "master" in repo.heads && "cherry-pick" !in repo.heads
      modifies repo, results`btype, results`result
      ensures repo.Valid() && repo.tags == old(repo.tags) && old(repo.commits) <= repo.commits
      ensures r.Ok? ==> (r.value <==> !pick)
      ensures r.Ok? && !r.value ==>
                && repo.heads.Keys == old(repo.heads.Keys)
                && (forall b :: b in old(repo.heads) && b !in TmpBranchesV01 ==> repo.heads[b] == old(repo.heads[b]))
      ensures r.Ok? && r.value && dryRun ==> repo.heads == old(repo.heads) - TmpBranchesV01
      ensures r.Ok? && r.value && !dryRun ==>
                && repo.heads.Keys == old(repo.heads.Keys) - TmpBranchesV01
                && StampIn(repo.TreeOf("etc"), TimestampName) == Ok(t)
    {
      if pick {
        var picked := GitCherryPick(outcome);
        if picked.Err? {
          return Err(picked.failure);
        }
        return Ok(false);
      }
      var finished := FinishUpdate(t);
      if finished.Err? {
        return Err(finished.failure);
      }
      r := Ok(true);
    }
  }
}
