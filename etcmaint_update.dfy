/**
 * The reconciliation decisions of etcmaint/etcmaint.py, over the trees of
 * the etc-tmp and master-tmp branches and the live /etc:
 *   - scan_cachedir sorts each extracted file into the files to add to
 *     etc-tmp, to add to master-tmp, or to cherry-pick into master-tmp;
 *   - git_removed_files drops from both branches the files missing in /etc;
 *   - git_user_updates copies into master-tmp the /etc files the user
 *     changed.
 * The design invariant behind them: a file of etc-tmp whose /etc copy
 * differs from it is tracked in master-tmp (or waits for the cherry-pick).
 */
module EtcMaintUpdate {
  import opened Common
  import opened PyText
  import opened Digests
  import opened EtcMaintPath
  import opened GitStore
  import opened EtcMaintText
  import opened EtcMaintPackages

  /** The names tracked_files keeps for the etc-tmp and master-tmp branches. */
  predicate IsTracked(p: Path)
  {
    p != ".gitignore" && StartsWith(p, "etc")
  }

  /** tracked_files(branch), given the `git ls-tree -r --name-only` listing of the branch. */
  function TrackedFiles(lsTree: seq<Path>): (r: seq<Path>)
  {
    Filter(lsTree, IsTracked)
  }

  /** The keys of the dictionary tracked_files returns for a branch with this tree. */
  function EtcKeys(t: Tree): set<Path>
  {
    set p | p in t && IsTracked(p)
  }

  /** tracked_files lists the tracked files of the branch, each once. */
  lemma TrackedFilesOfTree(lsTree: seq<Path>, t: Tree)
    requires Distinct(lsTree) && Elems(lsTree) == t.Keys
    ensures Distinct(TrackedFiles(lsTree)) && Elems(TrackedFiles(lsTree)) == EtcKeys(t)
  {
    FilterMembers(lsTree, IsTracked);
    FilterDistinct(lsTree, IsTracked);
  }

  /**
   * The digest of EtcPath(root_dir, root_dir, p), `live` holding the paths
   * os.path.lexists finds in /etc with the digest each one has: a missing
   * file cannot be opened and gets b''.
   */
  function LiveDigest(live: map<Path, Digest>, p: Path): Digest
  {
    if p in live then live[p] else Unreadable
  }

  // ---------------------------------------------------------------------
  // scan_cachedir: the classification of the extracted files
  // ---------------------------------------------------------------------

  /** What scan_cachedir does with one extracted file. */
  datatype Verdict =
    | Skipped                    // the /etc file cannot be read
    | Installed(toMaster: bool)  // a new file: added to etc-tmp, and to master-tmp when /etc differs
    | Upgraded                   // /etc already has the new version: etc-tmp is updated
    | ToCherryPick               // /etc differs from the new version: etc-tmp is updated in the cherry-picked commit
    | Unchanged                  // the package did not change the file

  /**
   * The decision, from the digest of the /etc file, whether etc-tmp tracks
   * the file, the digest remembered before the extraction and the digest
   * of the extracted file. `!=` between EtcPaths is the negation of Same.
   */
  function Classify(liveD: Digest, tracked: bool, prevD: Digest, pkgD: Digest): Verdict
  {
    if liveD == Unreadable then Skipped
    else if !tracked then Installed(!Same(liveD, pkgD))
    else if Same(liveD, pkgD) then (if !Same(prevD, pkgD) then Upgraded else Unchanged)
    else if !Same(prevD, pkgD) then ToCherryPick
    else Unchanged
  }

  /** extracted[p]: the digest the scan remembered for p. */
  function PrevDigest(x: Extraction, p: Path): Digest
  {
    if p in x.prev then x.prev[p] else Unreadable
  }

  /** The verdict for the extracted file p, etc-tmp tracking the paths `tracked`. */
  function VerdictAt(p: Path, x: Extraction, live: map<Path, Digest>, tracked: set<Path>): Verdict
  {
    Classify(LiveDigest(live, p), p in tracked, PrevDigest(x, p), DigestIn(x.work, p))
  }

  predicate AddsToEtc(v: Verdict)
  {
    v.Installed? || v.Upgraded?
  }

  /** rslt.pkg_add_etc, for the extracted names `order`. */
  function PkgAddEtc(order: seq<Path>, x: Extraction, live: map<Path, Digest>, tracked: set<Path>): seq<Path>
  {
    Filter(order, p => AddsToEtc(VerdictAt(p, x, live, tracked)))
  }

  /** rslt.pkg_add_master. */
  function PkgAddMaster(order: seq<Path>, x: Extraction, live: map<Path, Digest>, tracked: set<Path>): seq<Path>
  {
    Filter(order, p => VerdictAt(p, x, live, tracked) == Installed(true))
  }

  /** rslt.cherry_pick. */
  function CherryPicks(order: seq<Path>, x: Extraction, live: map<Path, Digest>, tracked: set<Path>): seq<Path>
  {
    Filter(order, p => VerdictAt(p, x, live, tracked).ToCherryPick?)
  }

  /** One more extracted name: each list grows by that name exactly when its verdict says so. */
  lemma ClassifyStep(order: seq<Path>, p: Path, x: Extraction, live: map<Path, Digest>, tracked: set<Path>)
    ensures PkgAddEtc(order + [p], x, live, tracked) ==
              PkgAddEtc(order, x, live, tracked) + (if AddsToEtc(VerdictAt(p, x, live, tracked)) then [p] else [])
    ensures PkgAddMaster(order + [p], x, live, tracked) ==
              PkgAddMaster(order, x, live, tracked) + (if VerdictAt(p, x, live, tracked) == Installed(true) then [p] else [])
    ensures CherryPicks(order + [p], x, live, tracked) ==
              CherryPicks(order, x, live, tracked) + (if VerdictAt(p, x, live, tracked).ToCherryPick? then [p] else [])
  {
    FilterSnoc(order, p, q => AddsToEtc(VerdictAt(q, x, live, tracked)));
    FilterSnoc(order, p, q => VerdictAt(q, x, live, tracked) == Installed(true));
    FilterSnoc(order, p, q => VerdictAt(q, x, live, tracked).ToCherryPick?);
  }

  /**
   * The three lists in terms of the digests: a file with an unreadable
   * /etc copy is in none; a new file is added to etc-tmp, and to
   * master-tmp exactly when /etc differs from the package; a tracked file
   * that the package changed is added to etc-tmp when /etc has the new
   * version and is cherry-picked otherwise.
   */
  lemma ClassificationMembers(x: Extraction, live: map<Path, Digest>, tracked: set<Path>, p: Path)
    ensures var liveD, prevD, pkgD := LiveDigest(live, p), PrevDigest(x, p), DigestIn(x.work, p);
      && (p in PkgAddEtc(x.order, x, live, tracked) <==>
            p in x.order && liveD != Unreadable
            && (p !in tracked || (Same(liveD, pkgD) && !Same(prevD, pkgD))))
      && (p in PkgAddMaster(x.order, x, live, tracked) <==>
            p in x.order && liveD != Unreadable && p !in tracked && !Same(liveD, pkgD))
      && (p in CherryPicks(x.order, x, live, tracked) <==>
            p in x.order && liveD != Unreadable && p in tracked && !Same(liveD, pkgD) && !Same(prevD, pkgD))
  {
    FilterMembers(x.order, p => AddsToEtc(VerdictAt(p, x, live, tracked)));
    FilterMembers(x.order, p => VerdictAt(p, x, live, tracked) == Installed(true));
    FilterMembers(x.order, p => VerdictAt(p, x, live, tracked).ToCherryPick?);
  }

  /**
   * Every file added to master-tmp is a new file also added to etc-tmp,
   * and no file is both added to etc-tmp and cherry-picked.
   */
  lemma ClassificationDisjoint(x: Extraction, live: map<Path, Digest>, tracked: set<Path>)
    ensures Elems(PkgAddMaster(x.order, x, live, tracked)) <= Elems(PkgAddEtc(x.order, x, live, tracked)) - tracked
    ensures Elems(CherryPicks(x.order, x, live, tracked)) !! Elems(PkgAddEtc(x.order, x, live, tracked))
    ensures Elems(CherryPicks(x.order, x, live, tracked)) <= tracked
  {
    forall p | p in PkgAddMaster(x.order, x, live, tracked)
      ensures p in PkgAddEtc(x.order, x, live, tracked) && p !in tracked
    {
      ClassificationMembers(x, live, tracked, p);
    }
    forall p | p in CherryPicks(x.order, x, live, tracked)
      ensures p !in PkgAddEtc(x.order, x, live, tracked) && p in tracked
    {
      ClassificationMembers(x, live, tracked, p);
    }
  }

  /**
   * A tracked file whose digest before the extraction is the digest of
   * the extracted file enters no list, whatever /etc holds.
   */
  lemma UnchangedFileEntersNoList(x: Extraction, live: map<Path, Digest>, tracked: set<Path>, p: Path)
    requires p in tracked && Same(PrevDigest(x, p), DigestIn(x.work, p))
    ensures p !in PkgAddEtc(x.order, x, live, tracked)
    ensures p !in PkgAddMaster(x.order, x, live, tracked)
    ensures p !in CherryPicks(x.order, x, live, tracked)
  {
    ClassificationMembers(x, live, tracked, p);
  }

  /**
   * Over a whole scan of packages that do not share a file: a tracked
   * file that the packages extract with the digest it already has in
   * etc-tmp enters no list.
   */
  lemma ReinstalledFileEntersNoList(etcTree: Tree, pkgs: seq<PkgFile>, excludeFiles: seq<string>,
                                     live: map<Path, Digest>, p: Path)
    requires PairwiseDisjoint(pkgs, excludeFiles)
    requires p in EtcKeys(etcTree) && p in KeptNames(pkgs, excludeFiles)
    requires var x := ExtractAll(etcTree, pkgs, excludeFiles);
      Same(DigestIn(etcTree, p), DigestIn(x.work, p))
    ensures var x := ExtractAll(etcTree, pkgs, excludeFiles);
      && p !in PkgAddEtc(x.order, x, live, EtcKeys(etcTree))
      && p !in PkgAddMaster(x.order, x, live, EtcKeys(etcTree))
      && p !in CherryPicks(x.order, x, live, EtcKeys(etcTree))
  {
    var x := ExtractAll(etcTree, pkgs, excludeFiles);
    ExtractAllEffect(etcTree, pkgs, excludeFiles);
    PrevIsBeforeScan(etcTree, pkgs, excludeFiles);
    assert PrevDigest(x, p) == DigestIn(etcTree, p);
    UnchangedFileEntersNoList(x, live, EtcKeys(etcTree), p);
  }

  // ---------------------------------------------------------------------
  // The design invariant
  // ---------------------------------------------------------------------

  /**
   * Every readable /etc file tracked in etc-tmp either is the same as its
   * etc-tmp copy, or is tracked in master-tmp, or is one of `pending`.
   */
  ghost predicate Agrees(live: map<Path, Digest>, etcTree: Tree, masterTree: Tree, pending: set<Path>)
  {
    forall p :: p in EtcKeys(etcTree) && LiveDigest(live, p) != Unreadable ==>
      Same(LiveDigest(live, p), DigestIn(etcTree, p)) || p in masterTree || p in pending
  }

  /** The files copy_file copies from /etc into the repository, as commit changes. */
  function CopiedFromEtc(live: map<Path, Digest>, files: seq<Path>): (t: Tree)
    ensures t.Keys == Elems(files)
    ensures forall p :: p in t ==> t[p] == Content(LiveDigest(live, p))
  {
    map p | p in Elems(files) :: Content(LiveDigest(live, p))
  }

  /** etc-tmp after git_upgraded_pkgs: the added files, then the cherry-picked ones, taken from the working tree. */
  function EtcAfterUpgrade(etcTree: Tree, x: Extraction, live: map<Path, Digest>): Tree
  {
    var tracked := EtcKeys(etcTree);
    etcTree + Restrict(x.work, Elems(PkgAddEtc(x.order, x, live, tracked)))
            + Restrict(x.work, Elems(CherryPicks(x.order, x, live, tracked)))
  }

  /** master-tmp after git_upgraded_pkgs: the new files whose /etc copy differs, copied from /etc. */
  function MasterAfterUpgrade(etcTree: Tree, masterTree: Tree, x: Extraction, live: map<Path, Digest>): Tree
  {
    masterTree + CopiedFromEtc(live, PkgAddMaster(x.order, x, live, EtcKeys(etcTree)))
  }

  /**
   * git_upgraded_pkgs keeps the invariant, the files to cherry-pick being
   * pending: a new file whose /etc copy differs from the package goes to
   * master-tmp, an upgraded file equals its /etc copy, and a file left
   * alone keeps the etc-tmp copy the invariant was about.
   */
  lemma UpgradeKeepsAgreement(etcTree: Tree, masterTree: Tree, pkgs: seq<PkgFile>, excludeFiles: seq<string>,
                               live: map<Path, Digest>)
    requires Agrees(live, etcTree, masterTree, {})
    ensures var x := ExtractAll(etcTree, pkgs, excludeFiles);
      Agrees(live, EtcAfterUpgrade(etcTree, x, live), MasterAfterUpgrade(etcTree, masterTree, x, live),
             Elems(CherryPicks(x.order, x, live, EtcKeys(etcTree))))
  {
    var x := ExtractAll(etcTree, pkgs, excludeFiles);
    ExtractAllEffect(etcTree, pkgs, excludeFiles);
    var etc' := EtcAfterUpgrade(etcTree, x, live);
    var master' := MasterAfterUpgrade(etcTree, masterTree, x, live);
    var picks := Elems(CherryPicks(x.order, x, live, EtcKeys(etcTree)));
    forall p | p in EtcKeys(etc') && LiveDigest(live, p) != Unreadable
      ensures Same(LiveDigest(live, p), DigestIn(etc', p)) || p in master' || p in picks
    {
      UpgradeAgreesAt(etcTree, masterTree, x, live, p);
    }
  }

  /** One file of UpgradeKeepsAgreement. */
  lemma UpgradeAgreesAt(etcTree: Tree, masterTree: Tree, x: Extraction, live: map<Path, Digest>, p: Path)
    requires Agrees(live, etcTree, masterTree, {})
    requires forall q :: q in x.order ==> q in x.work
    requires p in EtcKeys(EtcAfterUpgrade(etcTree, x, live)) && LiveDigest(live, p) != Unreadable
    ensures var etc' := EtcAfterUpgrade(etcTree, x, live);
      || Same(LiveDigest(live, p), DigestIn(etc', p))
      || p in MasterAfterUpgrade(etcTree, masterTree, x, live)
      || p in CherryPicks(x.order, x, live, EtcKeys(etcTree))
  {
    var tracked := EtcKeys(etcTree);
    var etc' := EtcAfterUpgrade(etcTree, x, live);
    ClassificationMembers(x, live, tracked, p);
    if p in CherryPicks(x.order, x, live, tracked) {
    } else if p in PkgAddEtc(x.order, x, live, tracked) {
      assert DigestIn(etc', p) == DigestIn(x.work, p);
    } else {
      assert p in tracked && etc'[p] == etcTree[p];
    }
  }

  // ---------------------------------------------------------------------
  // git_removed_files
  // ---------------------------------------------------------------------

  /** rslt.etc_removed: the tracked etc-tmp files that do not exist in /etc. */
  function EtcRemoved(etcTracked: seq<Path>, live: map<Path, Digest>): seq<Path>
  {
    Filter(etcTracked, p => p !in live)
  }

  /** rslt.master_removed: the tracked master-tmp files that do not exist in /etc. */
  function MasterRemoved(masterTracked: seq<Path>, live: map<Path, Digest>): seq<Path>
  {
    Filter(masterTracked, p => p !in live)
  }

  /**
   * master_remove: the etc_removed files master-tmp tracks, then every
   * tracked master-tmp file missing in /etc; a file in both is listed twice.
   */
  function MasterRemove(etcRemoved: seq<Path>, masterTracked: seq<Path>, live: map<Path, Digest>): seq<Path>
  {
    Filter(etcRemoved, p => p in masterTracked) + MasterRemoved(masterTracked, live)
  }

  /**
   * The removal cascade: etc-tmp loses exactly its tracked files missing
   * in /etc, and master-tmp loses exactly its own, the etc_removed files
   * it tracks being among them.
   */
  lemma RemovalCascade(etcTracked: seq<Path>, masterTracked: seq<Path>, etcTree: Tree, masterTree: Tree,
                       live: map<Path, Digest>)
    requires Elems(etcTracked) == EtcKeys(etcTree) && Elems(masterTracked) == EtcKeys(masterTree)
    ensures Elems(EtcRemoved(etcTracked, live)) == EtcKeys(etcTree) - live.Keys
    ensures Elems(MasterRemoved(masterTracked, live)) == EtcKeys(masterTree) - live.Keys
    ensures Elems(MasterRemove(EtcRemoved(etcTracked, live), masterTracked, live)) ==
            Elems(MasterRemoved(masterTracked, live))
    ensures EtcKeys(Without(etcTree, Elems(EtcRemoved(etcTracked, live)))) <= live.Keys
    ensures EtcKeys(Without(masterTree, Elems(MasterRemoved(masterTracked, live)))) <= live.Keys
  {
    var etcRemoved := EtcRemoved(etcTracked, live);
    FilterMembers(etcTracked, p => p !in live);
    FilterMembers(masterTracked, p => p !in live);
    FilterMembers(etcRemoved, p => p in masterTracked);
  }

  /**
   * A file tracked in both branches and deleted from /etc is listed twice
   * in master_remove, and reported both as removed from both branches and
   * as removed from master-tmp.
   */
  lemma RemovedFromBothListedTwice(p: Path, d: Digest)
    requires IsTracked(p)
    ensures var etcRemoved := EtcRemoved([p], map[]);
      && etcRemoved == [p]
      && MasterRemoved([p], map[]) == [p]
      && MasterRemove(etcRemoved, [p], map[]) == [p, p]
  {
    assert [p][..0] == [];
  }

  /** Removing files keeps the invariant: a file that left master-tmp is missing in /etc. */
  lemma RemovalKeepsAgreement(etcTracked: seq<Path>, masterTracked: seq<Path>, etcTree: Tree, masterTree: Tree,
                              live: map<Path, Digest>, pending: set<Path>)
    requires Elems(etcTracked) == EtcKeys(etcTree) && Elems(masterTracked) == EtcKeys(masterTree)
    requires Agrees(live, etcTree, masterTree, pending)
    ensures Agrees(live, Without(etcTree, Elems(EtcRemoved(etcTracked, live))),
                   Without(masterTree, Elems(MasterRemoved(masterTracked, live))), pending)
  {
    var etc' := Without(etcTree, Elems(EtcRemoved(etcTracked, live)));
    var master' := Without(masterTree, Elems(MasterRemoved(masterTracked, live)));
    FilterMembers(masterTracked, p => p !in live);
    forall p | p in EtcKeys(etc') && LiveDigest(live, p) != Unreadable
      ensures Same(LiveDigest(live, p), DigestIn(etc', p)) || p in master' || p in pending
    {
      assert p in EtcKeys(etcTree) && etc'[p] == etcTree[p];
      assert p in live;
    }
  }

  // ---------------------------------------------------------------------
  // git_user_updates
  // ---------------------------------------------------------------------

  /** to_check_in_master: the /etc files tracked in etc-tmp that are not the same as their etc-tmp copy. */
  function ToCheckInMaster(etcFiles: seq<Path>, etcTree: Tree, live: map<Path, Digest>): seq<Path>
  {
    Filter(etcFiles, p => p in EtcKeys(etcTree) && !Same(LiveDigest(live, p), DigestIn(etcTree, p)))
  }

  /** rslt.user_added as written: the files to check that master-tmp does not track. */
  function UserAddedAsWritten(etcFiles: seq<Path>, etcTree: Tree, masterTree: Tree, live: map<Path, Digest>): seq<Path>
  {
    Filter(ToCheckInMaster(etcFiles, etcTree, live), p => p !in EtcKeys(masterTree))
  }

  /**
   * rslt.user_added, skipping an unreadable /etc file as the loop that
   * builds user_updated does.
   */
  function UserAdded(etcFiles: seq<Path>, etcTree: Tree, masterTree: Tree, live: map<Path, Digest>): seq<Path>
  {
    Filter(ToCheckInMaster(etcFiles, etcTree, live),
           p => p !in EtcKeys(masterTree) && LiveDigest(live, p) != Unreadable)
  }

  /**
   * rslt.user_updated: the readable /etc files tracked in master-tmp, not
   * just added there from a package, that differ from their master-tmp copy.
   */
  function UserUpdated(etcFiles: seq<Path>, masterTree: Tree, pkgAddMaster: seq<Path>, live: map<Path, Digest>): seq<Path>
  {
    Filter(etcFiles, p => p in EtcKeys(masterTree) && p !in pkgAddMaster
                          && LiveDigest(live, p) != Unreadable
                          && !Same(LiveDigest(live, p), DigestIn(masterTree, p)))
  }

  /** copy_file: shutil.copy fails on a file it cannot read. */
  function CopyFile(live: map<Path, Digest>, p: Path): (r: Result<Blob>)
    ensures r.Ok? <==> LiveDigest(live, p) != Unreadable
    ensures r.Ok? ==> DigestIn(map[p := r.value], p) == LiveDigest(live, p)
  {
    if LiveDigest(live, p) == Unreadable then Err(PyError("OSError"))
    else Ok(Content(LiveDigest(live, p)))
  }

  /** The list elements in terms of the digests. */
  lemma UserUpdatesMembers(etcFiles: seq<Path>, etcTree: Tree, masterTree: Tree, pkgAddMaster: seq<Path>,
                           live: map<Path, Digest>, p: Path)
    ensures p in UserAdded(etcFiles, etcTree, masterTree, live) <==>
              p in etcFiles && p in EtcKeys(etcTree) && p !in EtcKeys(masterTree)
              && LiveDigest(live, p) != Unreadable && LiveDigest(live, p) != DigestIn(etcTree, p)
    ensures p in UserAddedAsWritten(etcFiles, etcTree, masterTree, live) <==>
              p in etcFiles && p in EtcKeys(etcTree) && p !in EtcKeys(masterTree)
              && !Same(LiveDigest(live, p), DigestIn(etcTree, p))
    ensures p in UserUpdated(etcFiles, masterTree, pkgAddMaster, live) <==>
              p in etcFiles && p in EtcKeys(masterTree) && p !in pkgAddMaster
              && LiveDigest(live, p) != Unreadable && LiveDigest(live, p) != DigestIn(masterTree, p)
  {
    var toCheck := ToCheckInMaster(etcFiles, etcTree, live);
    FilterMembers(etcFiles, p => p in EtcKeys(etcTree) && !Same(LiveDigest(live, p), DigestIn(etcTree, p)));
    FilterMembers(toCheck, p => p !in EtcKeys(masterTree) && LiveDigest(live, p) != Unreadable);
    FilterMembers(toCheck, p => p !in EtcKeys(masterTree));
    FilterMembers(etcFiles, p => p in EtcKeys(masterTree) && p !in pkgAddMaster
                                 && LiveDigest(live, p) != Unreadable
                                 && !Same(LiveDigest(live, p), DigestIn(masterTree, p)));
  }

  /**
   * As written, an unreadable /etc file tracked in etc-tmp and not in
   * master-tmp is added to user_added, and copying it then fails.
   */
  lemma UnreadableFileIsUserAdded()
    ensures var p, etcTree, live := "etc/shadow", map["etc/shadow" := Content(Bytes([1]))], map["etc/shadow" := Unreadable];
      && UserAddedAsWritten([p], etcTree, map[], live) == [p]
      && CopyFile(live, p).Err?
  {
    var p, etcTree, live := "etc/shadow", map["etc/shadow" := Content(Bytes([1]))], map["etc/shadow" := Unreadable];
    assert IsTracked(p);
    assert p in EtcKeys(etcTree);
    assert ToCheckInMaster([p], etcTree, live) == [p] by {
      assert [p][..0] == [];
    }
    assert [p][..0] == [];
  }

  /** With the check, every file of user_added, as of user_updated, can be copied. */
  lemma UserUpdatesCopy(etcFiles: seq<Path>, etcTree: Tree, masterTree: Tree, pkgAddMaster: seq<Path>,
                        live: map<Path, Digest>)
    ensures forall p :: p in UserAdded(etcFiles, etcTree, masterTree, live) ==> CopyFile(live, p).Ok?
    ensures forall p :: p in UserUpdated(etcFiles, masterTree, pkgAddMaster, live) ==> CopyFile(live, p).Ok?
  {
    forall p | p in UserAdded(etcFiles, etcTree, masterTree, live) || p in UserUpdated(etcFiles, masterTree, pkgAddMaster, live)
      ensures CopyFile(live, p).Ok?
    {
      UserUpdatesMembers(etcFiles, etcTree, masterTree, pkgAddMaster, live, p);
    }
  }

  /** master-tmp after git_user_updates: the added files, then the updated ones, copied from /etc. */
  function MasterAfterUserUpdates(etcFiles: seq<Path>, etcTree: Tree, masterTree: Tree, pkgAddMaster: seq<Path>,
                                  live: map<Path, Digest>): Tree
  {
    masterTree + CopiedFromEtc(live, UserAdded(etcFiles, etcTree, masterTree, live))
               + CopiedFromEtc(live, UserUpdated(etcFiles, masterTree, pkgAddMaster, live))
  }

  /** The listing of /etc holds every readable /etc file that the tree tracks. */
  ghost predicate ListingHolds(etcFiles: seq<Path>, live: map<Path, Digest>, t: Tree)
  {
    forall p :: p in EtcKeys(t) && LiveDigest(live, p) != Unreadable ==> p in etcFiles
  }

  /**
   * git_user_updates establishes the invariant with nothing pending,
   * whatever held before, provided the listing of /etc holds the readable
   * files etc-tmp tracks.
   */
  lemma UserUpdatesRestoreAgreement(etcFiles: seq<Path>, etcTree: Tree, masterTree: Tree, pkgAddMaster: seq<Path>,
                                    live: map<Path, Digest>)
    requires ListingHolds(etcFiles, live, etcTree)
    ensures Agrees(live, etcTree, MasterAfterUserUpdates(etcFiles, etcTree, masterTree, pkgAddMaster, live), {})
  {
    var master' := MasterAfterUserUpdates(etcFiles, etcTree, masterTree, pkgAddMaster, live);
    forall p | p in EtcKeys(etcTree) && LiveDigest(live, p) != Unreadable
      ensures Same(LiveDigest(live, p), DigestIn(etcTree, p)) || p in master'
    {
      UserUpdatesMembers(etcFiles, etcTree, masterTree, pkgAddMaster, live, p);
    }
  }

  /**
   * After git_user_updates every readable /etc file tracked in master-tmp
   * is the same as its master-tmp copy, provided the listing of /etc holds
   * those files and the files just added from a package were copied from
   * /etc.
   */
  lemma MasterMirrorsEtc(etcFiles: seq<Path>, etcTree: Tree, masterTree: Tree, pkgAddMaster: seq<Path>,
                         live: map<Path, Digest>)
    requires forall p :: p in EtcKeys(masterTree) && LiveDigest(live, p) != Unreadable ==> p in etcFiles
    requires forall p :: p in pkgAddMaster ==> p in masterTree && masterTree[p] == Content(LiveDigest(live, p))
    ensures var master' := MasterAfterUserUpdates(etcFiles, etcTree, masterTree, pkgAddMaster, live);
      forall p :: p in EtcKeys(master') && LiveDigest(live, p) != Unreadable ==>
        Same(LiveDigest(live, p), DigestIn(master', p))
  {
    var master' := MasterAfterUserUpdates(etcFiles, etcTree, masterTree, pkgAddMaster, live);
    var added := UserAdded(etcFiles, etcTree, masterTree, live);
    var updated := UserUpdated(etcFiles, masterTree, pkgAddMaster, live);
    forall p | p in EtcKeys(master') && LiveDigest(live, p) != Unreadable
      ensures Same(LiveDigest(live, p), DigestIn(master', p))
    {
      UserUpdatesMembers(etcFiles, etcTree, masterTree, pkgAddMaster, live, p);
      if p in updated {
        assert master'[p] == Content(LiveDigest(live, p));
      } else if p in added {
        assert master'[p] == Content(LiveDigest(live, p));
      } else {
        assert p in EtcKeys(masterTree) && master'[p] == masterTree[p];
      }
    }
  }
}
