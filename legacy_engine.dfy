/**
 * The reconciliation engine that etcmaint.py (version 0.1) and
 * etcmerger.py share line for line: the choice of the new package
 * archives against one global timestamp, the extraction of their etc
 * files into etc-tmp, the classification of the extracted files, the
 * removal of the files missing in /etc and the temporary-branch state
 * machine. Digests are optional: None stands for a file that does not
 * exist or cannot be read (v0.1's GitRepo.digest, etcmerger's OSError
 * handlers, and etcmerger's b'' for a missing previous file, which like
 * None equals no real digest), compared with plain `==`.
 */
module LegacyEngine {
  import opened Common
  import opened PyText
  import opened Digests
  import opened GitStore
  import opened EtcMaintText
  import opened EtcMaintPackages
  import opened EtcMaintUpdate
  import opened EtcMaintCommands
  import opened EtcLegacy

  // ---------------------------------------------------------------------
  // new_packages: one timestamp, the greatest file name of each package
  // ---------------------------------------------------------------------

  /**
   * The package name under which new_packages considers a cache entry: a
   * file name ending in .pkg.tar.xz, an mtime past the timestamp, a file
   * name that no non-empty excluded prefix starts, and a file name that
   * rsplit('-', 3) cuts into four fields.
   */
  function LegacyCandidate(e: PkgFile, timestamp: int, excludePkgs: seq<string>): (r: Option<string>)
    ensures r.Some? <==> EndsWith(e.fileName, ".pkg.tar.xz") && e.mtime > timestamp
                         && !HasPrefix(e.fileName, excludePkgs) && Count(e.fileName, '-') >= 3
    ensures r.Some? ==> exists tail :: e.fileName == r.value + "-" + tail
  {
    if !EndsWith(e.fileName, ".pkg.tar.xz") || e.mtime <= timestamp || HasPrefix(e.fileName, excludePkgs) then None
    else if PackageName(e.fileName).None? then None
    else PackageNamePrefix(e.fileName); PackageName(e.fileName)
  }

  /** Entry j loses to entry s: s has the greater file name, or the same one and came first. */
  predicate Outranked(names: seq<string>, j: nat, s: nat)
    requires j < |names| && s < |names|
  {
    Less(names[j], names[s]) || (names[j] == names[s] && s <= j)
  }

  /**
   * Of the candidates of each package among the first n entries,
   * `selected` holds the one no other outranks, and holds no other name.
   */
  predicate Picked(cands: seq<Option<string>>, names: seq<string>, n: nat, selected: map<string, nat>)
  {
    n <= |cands| == |names|
    && (forall name :: name in selected ==> selected[name] < n && cands[selected[name]] == Some(name))
    && (forall j :: 0 <= j < n && cands[j].Some? ==>
          cands[j].value in selected && Outranked(names, j, selected[cands[j].value]))
  }

  /** The selection new_packages makes among the entries of the cache. */
  predicate PickedFrom(entries: seq<PkgFile>, timestamp: int, excludePkgs: seq<string>, selected: map<string, nat>)
  {
    Picked(MapSeq(entries, (e: PkgFile) => LegacyCandidate(e, timestamp, excludePkgs)),
           MapSeq(entries, (e: PkgFile) => e.fileName), |entries|, selected)
  }

  /** An entry that is no candidate, or whose file name is not greater than the chosen one's, changes nothing. */
  lemma PickSkip(cands: seq<Option<string>>, names: seq<string>, n: nat, selected: map<string, nat>)
    requires n < |cands| && Picked(cands, names, n, selected)
    requires cands[n].Some? ==> cands[n].value in selected && !Less(names[selected[cands[n].value]], names[n])
    ensures Picked(cands, names, n + 1, selected)
  {
    if cands[n].Some? {
      var s := selected[cands[n].value];
      if names[n] != names[s] {
        LessTotal(names[n], names[s]);
      }
    }
  }

  /** A candidate with a greater file name than the chosen one replaces it. */
  lemma PickTake(cands: seq<Option<string>>, names: seq<string>, n: nat, selected: map<string, nat>)
    requires n < |cands| && Picked(cands, names, n, selected) && cands[n].Some?
    requires cands[n].value in selected ==> Less(names[selected[cands[n].value]], names[n])
    ensures Picked(cands, names, n + 1, selected[cands[n].value := n])
  {
    var name := cands[n].value;
    var sel := selected[name := n];
    forall j | 0 <= j < n + 1 && cands[j].Some?
      ensures cands[j].value in sel && Outranked(names, j, sel[cands[j].value])
    {
      if j < n && cands[j].value == name {
        var s := selected[name];
        assert Outranked(names, j, s);
        if Less(names[j], names[s]) {
          LessTransitive(names[j], names[s], names[n]);
        }
      }
    }
  }

  /**
   * The chosen archive of a package has the greatest file name among its
   * candidates, and is the first entry with that file name.
   */
  lemma PickedGreatest(cands: seq<Option<string>>, names: seq<string>, selected: map<string, nat>, j: nat)
    requires Picked(cands, names, |cands|, selected) && j < |cands| && cands[j].Some?
    ensures cands[j].value in selected
    ensures !Less(names[selected[cands[j].value]], names[j])
    ensures names[j] == names[selected[cands[j].value]] ==> selected[cands[j].value] <= j
  {
    var s := selected[cands[j].value];
    if Less(names[j], names[s]) {
      LessAsymmetric(names[j], names[s]);
    } else {
      LessIrreflexive(names[j]);
    }
  }

  /** The selection is determined by the entries: two selections of the same candidates are the same. */
  lemma PickedUnique(cands: seq<Option<string>>, names: seq<string>, s1: map<string, nat>, s2: map<string, nat>)
    requires Picked(cands, names, |cands|, s1) && Picked(cands, names, |cands|, s2)
    ensures s1 == s2
  {
    forall name | name in s1
      ensures name in s2 && s2[name] == s1[name]
    {
      var a := s1[name];
      var b := s2[name];
      assert Outranked(names, a, b) && Outranked(names, b, a);
      if Less(names[a], names[b]) {
        LessAsymmetric(names[a], names[b]);
      }
    }
    forall name | name in s2
      ensures name in s1
    {
      assert cands[s2[name]] == Some(name);
    }
  }

  /**
   * new_packages: scan the cache entries, skip what is not an archive,
   * what is not newer than the timestamp, what an excluded prefix starts
   * and what has a malformed name, and keep for each package the archive
   * with the greatest file name. Returns, per package name, the index of
   * the chosen entry, and the names in the order the packages dictionary
   * first received them.
   */
  method NewPackages(entries: seq<PkgFile>, timestamp: int, excludePkgs: seq<string>)
    returns (selected: map<string, nat>, order: seq<string>)
    ensures PickedFrom(entries, timestamp, excludePkgs, selected)
    ensures Distinct(order) && Elems(order) == selected.Keys
  {
    ghost var cands := MapSeq(entries, (e: PkgFile) => LegacyCandidate(e, timestamp, excludePkgs));
    ghost var names := MapSeq(entries, (e: PkgFile) => e.fileName);
    selected := map[];
    order := [];
    var i := 0;
    while i < |entries|
      invariant 0 <= i <= |entries|
      invariant Picked(cands, names, i, selected)
      invariant Distinct(order) && forall x :: x in order <==> x in selected
    {
      var e := entries[i];
      assert cands[i] == LegacyCandidate(e, timestamp, excludePkgs) && names[i] == e.fileName;
      var name := None;
      if EndsWith(e.fileName, ".pkg.tar.xz") && e.mtime > timestamp && !HasPrefix(e.fileName, excludePkgs) {
        // warn('ignoring incorrect package name') when this is None
        name := PackageName(e.fileName);
      }
      if name.Some? && (name.value !in selected || Less(entries[selected[name.value]].fileName, e.fileName)) {
        PickTake(cands, names, i, selected);
        if name.value !in selected {
          order := order + [name.value];
        }
        selected := selected[name.value := i];
      } else {
        PickSkip(cands, names, i, selected);
      }
      i := i + 1;
    }
    assert Elems(order) == selected.Keys;
  }

  // ---------------------------------------------------------------------
  // scan / extract: the etc files of the chosen archives
  // ---------------------------------------------------------------------

  /** etc_files_filter: regular files under etc, not excluded by name. */
  predicate LegacyKept(m: Member, excludeFiles: seq<string>)
  {
    m.kind == RegularFile && StartsWith(m.name, "etc") && m.name !in excludeFiles
  }

  /** The members of an archive that the scan extracts, in archive order. */
  function LegacyMembers(pkg: PkgFile, excludeFiles: seq<string>): (r: seq<Member>)
    ensures forall m :: m in r <==> m in pkg.members && LegacyKept(m, excludeFiles)
  {
    FilterMembers(pkg.members, (m: Member) => LegacyKept(m, excludeFiles));
    Filter(pkg.members, (m: Member) => LegacyKept(m, excludeFiles))
  }

  /** GitRepo.digest of a file of the working tree: None when there is no such file. */
  function RepoDigest(t: Tree, p: Path): Option<Digest>
  {
    if p in t && t[p].Content? then Some(t[p].digest) else None
  }

  /**
   * The state the scan builds: the names of the `extracted` dictionary in
   * its order, the digest remembered for each, and the working tree.
   */
  datatype Unpacked = Unpacked(order: seq<Path>, prev: map<Path, Option<Digest>>, work: Tree)

  /** The order lists the keys of the dictionary, each once. */
  ghost predicate Keyed(u: Unpacked)
  {
    Distinct(u.order) && forall p :: p in u.order <==> p in u.prev
  }

  /**
   * The loop of extract_from: the digest of every member's file in
   * `before` recorded under its name; a name seen again keeps its place.
   */
  function Recall(u: Unpacked, before: Tree, ms: seq<Member>): Unpacked
    decreases |ms|
  {
    if ms == [] then u
    else
      var v := Recall(u, before, ms[..|ms| - 1]);
      var m := ms[|ms| - 1];
      Unpacked(if m.name in v.prev then v.order else v.order + [m.name],
               v.prev[m.name := RepoDigest(before, m.name)], v.work)
  }

  /**
   * Every member's path is recorded with the digest it has in `before`,
   * the other names keep theirs, the tree is untouched and the order
   * still lists the keys once each.
   */
  lemma {:induction false} RecallEffect(u: Unpacked, before: Tree, ms: seq<Member>)
    ensures var r := Recall(u, before, ms);
      && r.work == u.work
      && r.prev.Keys == u.prev.Keys + Names(ms)
      && (forall p :: p in Names(ms) ==> r.prev[p] == RepoDigest(before, p))
      && (forall p :: p in u.prev && p !in Names(ms) ==> r.prev[p] == u.prev[p])
      && (Keyed(u) ==> Keyed(r))
    decreases |ms|
  {
    if ms != [] {
      RecallEffect(u, before, ms[..|ms| - 1]);
      var v := Recall(u, before, ms[..|ms| - 1]);
      var m := ms[|ms| - 1];
      if Keyed(u) && m.name !in v.prev {
        assert m.name !in v.order;
      }
    }
  }

  /** Every extracted path holds the content of an archive member. */
  lemma {:induction false} OverlayContent(work: Tree, ms: seq<Member>)
    ensures forall p :: p in Names(ms) ==> p in Overlay(work, ms) && Overlay(work, ms)[p].Content?
    decreases |ms|
  {
    if ms != [] {
      OverlayContent(work, ms[..|ms| - 1]);
    }
  }

  /** extract_from(pkg): remember the digests, then extract. */
  function UnpackFrom(u: Unpacked, pkg: PkgFile, excludeFiles: seq<string>): Unpacked
  {
    var kept := LegacyMembers(pkg, excludeFiles);
    var v := Recall(u, u.work, kept);
    Unpacked(v.order, v.prev, Overlay(u.work, kept))
  }

  /** The names of the extracted members of the archives. */
  function LegacyNames(pkgs: seq<PkgFile>, excludeFiles: seq<string>): set<Path>
    decreases |pkgs|
  {
    if pkgs == [] then {}
    else LegacyNames(pkgs[..|pkgs| - 1], excludeFiles) + Names(LegacyMembers(pkgs[|pkgs| - 1], excludeFiles))
  }

  /** The archives extracted one after the other into `work`. */
  function UnpackAll(work: Tree, pkgs: seq<PkgFile>, excludeFiles: seq<string>): Unpacked
    decreases |pkgs|
  {
    if pkgs == [] then Unpacked([], map[], work)
    else UnpackFrom(UnpackAll(work, pkgs[..|pkgs| - 1], excludeFiles), pkgs[|pkgs| - 1], excludeFiles)
  }

  /**
   * The scan extracts the kept members of all the archives and nothing
   * else: the dictionary holds exactly their names, each once in its
   * order, each extracted file holds a member's content, and every other
   * file of the working tree is left as it was.
   */
  lemma {:induction false} UnpackAllEffect(work: Tree, pkgs: seq<PkgFile>, excludeFiles: seq<string>)
    ensures var r := UnpackAll(work, pkgs, excludeFiles);
      && Keyed(r)
      && r.prev.Keys == LegacyNames(pkgs, excludeFiles)
      && r.work.Keys == work.Keys + LegacyNames(pkgs, excludeFiles)
      && (forall p :: p in LegacyNames(pkgs, excludeFiles) ==> RepoDigest(r.work, p).Some?)
      && (forall p :: p in work && p !in LegacyNames(pkgs, excludeFiles) ==> r.work[p] == work[p])
    decreases |pkgs|
  {
    if pkgs != [] {
      var n := |pkgs| - 1;
      UnpackAllEffect(work, pkgs[..n], excludeFiles);
      var u := UnpackAll(work, pkgs[..n], excludeFiles);
      var kept := LegacyMembers(pkgs[n], excludeFiles);
      RecallEffect(u, u.work, kept);
      OverlayEffect(u.work, kept);
      OverlayContent(u.work, kept);
    }
  }

  /** extract_from(pkg) on the state of the scan so far. */
  method UnpackPackage(u: Unpacked, pkg: PkgFile, excludeFiles: seq<string>) returns (v: Unpacked)
    ensures v == UnpackFrom(u, pkg, excludeFiles)
  {
    var kept := Filter(pkg.members, (m: Member) => LegacyKept(m, excludeFiles));
    // Remember the digest of each existing file before extracting it.
    var order, prev := u.order, u.prev;
    var j := 0;
    while j < |kept|
      invariant 0 <= j <= |kept|
      invariant Unpacked(order, prev, u.work) == Recall(u, u.work, kept[..j])
    {
      assert kept[..j + 1][..j] == kept[..j];
      var m := kept[j];
      if m.name !in prev {
        order := order + [m.name];
      }
      prev := prev[m.name := RepoDigest(u.work, m.name)];
      j := j + 1;
    }
    assert kept[..j] == kept;
    // tar.extractall(members=etc_files_filter(...))
    v := Unpacked(order, prev, Overlay(u.work, kept));
  }

  /** scan (extract in etcmerger.py): extract the archives one after the other. */
  method Unpack(pkgs: seq<PkgFile>, work: Tree, excludeFiles: seq<string>) returns (u: Unpacked)
    ensures u == UnpackAll(work, pkgs, excludeFiles)
  {
    u := Unpacked([], map[], work);
    var k := 0;
    while k < |pkgs|
      invariant 0 <= k <= |pkgs|
      invariant u == UnpackAll(work, pkgs[..k], excludeFiles)
    {
      assert pkgs[..k + 1][..k] == pkgs[..k];
      u := UnpackPackage(u, pkgs[k], excludeFiles);
      k := k + 1;
    }
    assert pkgs[..k] == pkgs;
  }

  // ---------------------------------------------------------------------
  // scan_cachedir: the classification of the extracted files
  // ---------------------------------------------------------------------

  /** The digest of the /etc file: None when it does not exist or cannot be read. */
  function LiveOf(live: map<Path, Option<Digest>>, p: Path): Option<Digest>
  {
    if p in live then live[p] else None
  }

  /**
   * The decision, from the digest of the /etc file, whether etc-tmp tracks
   * the file, the digest remembered before the extraction and the digest
   * of the extracted file.
   */
  function ClassifyLegacy(liveD: Option<Digest>, tracked: bool, prevD: Option<Digest>, pkgD: Option<Digest>): Verdict
  {
    if liveD.None? then Skipped
    else if !tracked then Installed(liveD != pkgD)
    else if liveD == pkgD then (if prevD != pkgD then Upgraded else Unchanged)
    else if prevD != pkgD then ToCherryPick
    else Unchanged
  }

  /** The verdict for the extracted file p, etc-tmp tracking the paths `tracked`. */
  function LegacyVerdict(p: Path, u: Unpacked, live: map<Path, Option<Digest>>, tracked: set<Path>): Verdict
  {
    ClassifyLegacy(LiveOf(live, p), p in tracked, if p in u.prev then u.prev[p] else None, RepoDigest(u.work, p))
  }

  /** res.pkg_add_etc, for the extracted names `order`. */
  function AddEtc(order: seq<Path>, u: Unpacked, live: map<Path, Option<Digest>>, tracked: set<Path>): seq<Path>
  {
    Filter(order, p => AddsToEtc(LegacyVerdict(p, u, live, tracked)))
  }

  /** res.pkg_add_master. */
  function AddMaster(order: seq<Path>, u: Unpacked, live: map<Path, Option<Digest>>, tracked: set<Path>): seq<Path>
  {
    Filter(order, p => LegacyVerdict(p, u, live, tracked) == Installed(true))
  }

  /** res.cherry_pick. */
  function Picks(order: seq<Path>, u: Unpacked, live: map<Path, Option<Digest>>, tracked: set<Path>): seq<Path>
  {
    Filter(order, p => LegacyVerdict(p, u, live, tracked).ToCherryPick?)
  }

  /**
   * Which list an extracted file with a digest enters: none when /etc
   * cannot be read; pkg_add_etc when etc-tmp does not track it, and
   * pkg_add_master too when /etc differs; for a tracked file whose
   * package digest changed, pkg_add_etc when /etc already has the new
   * version and cherry_pick when it differs.
   */
  lemma LegacyClassificationMembers(u: Unpacked, live: map<Path, Option<Digest>>, tracked: set<Path>, p: Path)
    requires p in u.order && RepoDigest(u.work, p).Some?
    ensures var liveD, pkgD, prevD := LiveOf(live, p), RepoDigest(u.work, p), if p in u.prev then u.prev[p] else None;
      && (p in AddEtc(u.order, u, live, tracked) <==>
            liveD.Some? && (p !in tracked || (liveD == pkgD && prevD != pkgD)))
      && (p in AddMaster(u.order, u, live, tracked) <==> liveD.Some? && p !in tracked && liveD != pkgD)
      && (p in Picks(u.order, u, live, tracked) <==>
            liveD.Some? && p in tracked && liveD != pkgD && prevD != pkgD)
  {
    FilterMembers(u.order, p => AddsToEtc(LegacyVerdict(p, u, live, tracked)));
    FilterMembers(u.order, p => LegacyVerdict(p, u, live, tracked) == Installed(true));
    FilterMembers(u.order, p => LegacyVerdict(p, u, live, tracked).ToCherryPick?);
  }

  /**
   * pkg_add_master is part of pkg_add_etc and holds no file etc-tmp
   * tracks; no file is both added to etc-tmp and cherry-picked; a file
   * whose package digest did not change enters no list.
   */
  lemma LegacyClassificationDisjoint(u: Unpacked, live: map<Path, Option<Digest>>, tracked: set<Path>)
    ensures Elems(AddMaster(u.order, u, live, tracked)) <= Elems(AddEtc(u.order, u, live, tracked))
    ensures Elems(AddMaster(u.order, u, live, tracked)) !! tracked
    ensures Elems(Picks(u.order, u, live, tracked)) !! Elems(AddEtc(u.order, u, live, tracked))
    ensures forall p :: p in u.prev && p in tracked && u.prev[p] == RepoDigest(u.work, p) ==>
              p !in AddEtc(u.order, u, live, tracked) + AddMaster(u.order, u, live, tracked) + Picks(u.order, u, live, tracked)
  {
    FilterMembers(u.order, p => AddsToEtc(LegacyVerdict(p, u, live, tracked)));
    FilterMembers(u.order, p => LegacyVerdict(p, u, live, tracked) == Installed(true));
    FilterMembers(u.order, p => LegacyVerdict(p, u, live, tracked).ToCherryPick?);
  }

  /** One more extracted name: each list gains it when its verdict names that list. */
  lemma ListsSnoc(names: seq<Path>, p: Path, u: Unpacked, live: map<Path, Option<Digest>>, tracked: set<Path>)
    ensures var v := LegacyVerdict(p, u, live, tracked);
      && AddEtc(names + [p], u, live, tracked) == AddEtc(names, u, live, tracked) + (if AddsToEtc(v) then [p] else [])
      && AddMaster(names + [p], u, live, tracked) == AddMaster(names, u, live, tracked) + (if v == Installed(true) then [p] else [])
      && Picks(names + [p], u, live, tracked) == Picks(names, u, live, tracked) + (if v.ToCherryPick? then [p] else [])
  {
    FilterSnoc(names, p, p => AddsToEtc(LegacyVerdict(p, u, live, tracked)));
    FilterSnoc(names, p, p => LegacyVerdict(p, u, live, tracked) == Installed(true));
    FilterSnoc(names, p, p => LegacyVerdict(p, u, live, tracked).ToCherryPick?);
  }

  /**
   * The loop of scan_cachedir over the `extracted` dictionary, appending
   * each file to the lists its verdict names.
   */
  method SortExtracted(u: Unpacked, live: map<Path, Option<Digest>>, tracked: set<Path>)
    returns (addEtc: seq<Path>, addMaster: seq<Path>, picks: seq<Path>)
    ensures addEtc == AddEtc(u.order, u, live, tracked)
    ensures addMaster == AddMaster(u.order, u, live, tracked)
    ensures picks == Picks(u.order, u, live, tracked)
  {
    addEtc, addMaster, picks := [], [], [];
    var names := u.order;
    var i := 0;
    while i < |names|
      invariant 0 <= i <= |names|
      invariant addEtc == AddEtc(names[..i], u, live, tracked)
      invariant addMaster == AddMaster(names[..i], u, live, tracked)
      invariant picks == Picks(names[..i], u, live, tracked)
    {
      var fname := names[i];
      assert names[..i + 1] == names[..i] + [fname];
      ListsSnoc(names[..i], fname, u, live, tracked);
      var pkgD := RepoDigest(u.work, fname);
      var liveD := LiveOf(live, fname);
      var prevD := if fname in u.prev then u.prev[fname] else None;
      if liveD.None? {
        // warn('skip %s: not readable')
      } else if fname !in tracked {
        // A new package install.
        addEtc := addEtc + [fname];
        if liveD != pkgD {
          addMaster := addMaster + [fname];
        }
      } else if liveD == pkgD {
        // A package upgrade.
        if prevD != pkgD {
          addEtc := addEtc + [fname];
        }
      } else if prevD != pkgD {
        picks := picks + [fname];
      }
      i := i + 1;
    }
    assert names[..i] == names;
  }

  // ---------------------------------------------------------------------
  // git_removed_pkgs
  // ---------------------------------------------------------------------

  /**
   * res.etc_removed: the etc-tmp files, but .gitignore and the timestamp
   * file, that are not a regular file under / (not keys of `live`).
   */
  function LegacyEtcRemoved(etcTracked: seq<Path>, live: map<Path, Option<Digest>>, tsName: string): seq<Path>
  {
    Filter(etcTracked, p => p != ".gitignore" && p != tsName && p !in live)
  }

  /** master_remove: the files of etc_removed that master-tmp tracks. */
  function LegacyMasterRemove(etcRemoved: seq<Path>, masterTracked: seq<Path>): seq<Path>
  {
    Filter(etcRemoved, p => p in masterTracked)
  }

  /**
   * The removal cascade: etc_removed is exactly the set of etc-tmp files,
   * but the two exclusions, missing in /etc; after it etc-tmp keeps only
   * files present in /etc (or excluded), and master-tmp loses exactly the
   * removed files it tracks, which is the same as losing all of them.
   */
  lemma LegacyRemovalCascade(etcTracked: seq<Path>, masterTracked: seq<Path>, etcTree: Tree, masterTree: Tree,
                             live: map<Path, Option<Digest>>, tsName: string)
    requires Elems(etcTracked) == etcTree.Keys && Elems(masterTracked) == masterTree.Keys
    ensures var removed := LegacyEtcRemoved(etcTracked, live, tsName);
      && Elems(removed) == set p | p in etcTree && p != ".gitignore" && p != tsName && p !in live
      && (forall p :: p in Without(etcTree, Elems(removed)) ==> p in live || p == ".gitignore" || p == tsName)
      && Elems(LegacyMasterRemove(removed, masterTracked)) == Elems(removed) * masterTree.Keys
      && Without(masterTree, Elems(LegacyMasterRemove(removed, masterTracked))) == Without(masterTree, Elems(removed))
  {
    var removed := LegacyEtcRemoved(etcTracked, live, tsName);
    FilterMembers(etcTracked, p => p != ".gitignore" && p != tsName && p !in live);
    FilterMembers(removed, p => p in masterTracked);
  }

  /** `if files: checkout(branch); remove(files, msg)`. */
  method RemoveIn(repo: GitRepo, branch: string, files: seq<Path>)
    requires repo.Valid() && repo.OnBranch() && branch in repo.heads
    modifies repo
    ensures repo.Valid() && repo.OnBranch() && repo.OnlyMoved({branch})
    ensures repo.TreeOf(branch) == Without(old(repo.TreeOf(branch)), Elems(files))
    ensures files != [] ==> repo.curbranch == Some(branch)
    ensures files == [] ==> repo.heads == old(repo.heads) && repo.curbranch == old(repo.curbranch)
  {
    if files != [] {
      repo.Checkout(branch, false);
      var _ := repo.Remove(Elems(files));
    } else {
      assert Without(repo.TreeOf(branch), Elems(files)) == repo.TreeOf(branch);
    }
  }

  /**
   * git_removed_pkgs: list the etc-tmp files missing in /etc, remove them
   * from etc-tmp, then remove from master-tmp those of them it tracks.
   * Returns etc_removed and the ls-tree listing of etc-tmp it came from.
   */
  method GitRemovedPkgs(repo: GitRepo, live: map<Path, Option<Digest>>, tsName: string)
    returns (etcRemoved: seq<Path>, ghost etcTracked: seq<Path>)
    requires repo.Valid() && repo.OnBranch() && "etc-tmp" in repo.heads && "master-tmp" in repo.heads
    modifies repo
    ensures repo.Valid() && repo.OnBranch() && repo.OnlyMoved({"etc-tmp", "master-tmp"})
    ensures Distinct(etcTracked) && Elems(etcTracked) == old(repo.TreeOf("etc-tmp")).Keys
    ensures etcRemoved == LegacyEtcRemoved(etcTracked, live, tsName)
    ensures repo.TreeOf("etc-tmp") == Without(old(repo.TreeOf("etc-tmp")), Elems(etcRemoved))
    ensures repo.TreeOf("master-tmp") == Without(old(repo.TreeOf("master-tmp")), Elems(etcRemoved))
  {
    ghost var etc0, master0 := repo.TreeOf("etc-tmp"), repo.TreeOf("master-tmp");
    etcRemoved, etcTracked := RemovedFromEtcTmp(repo, live, tsName);
    ghost var etc1 := repo.TreeOf("etc-tmp");
    assert repo.TreeOf("master-tmp") == master0;
    RemovedFromMasterTmp(repo, etcRemoved);
    assert repo.TreeOf("etc-tmp") == etc1;
  }

  /** The etc-tmp half of git_removed_pkgs. */
  method RemovedFromEtcTmp(repo: GitRepo, live: map<Path, Option<Digest>>, tsName: string)
    returns (etcRemoved: seq<Path>, ghost etcTracked: seq<Path>)
    requires repo.Valid() && repo.OnBranch() && "etc-tmp" in repo.heads
    modifies repo
    ensures repo.Valid() && repo.OnBranch() && repo.OnlyMoved({"etc-tmp"})
    ensures Distinct(etcTracked) && Elems(etcTracked) == old(repo.TreeOf("etc-tmp")).Keys
    ensures etcRemoved == LegacyEtcRemoved(etcTracked, live, tsName)
    ensures repo.TreeOf("etc-tmp") == Without(old(repo.TreeOf("etc-tmp")), Elems(etcRemoved))
  {
    var etcNames := repo.LsTree("etc-tmp");
    etcTracked := etcNames;
    etcRemoved := SelectNames(etcNames, p => p != ".gitignore" && p != tsName && p !in live);
    RemoveIn(repo, "etc-tmp", etcRemoved);
  }

  /** The master-tmp half of git_removed_pkgs: master_remove, the removed files master-tmp tracks. */
  method RemovedFromMasterTmp(repo: GitRepo, etcRemoved: seq<Path>)
    requires repo.Valid() && repo.OnBranch() && "master-tmp" in repo.heads
    modifies repo
    ensures repo.Valid() && repo.OnBranch() && repo.OnlyMoved({"master-tmp"})
    ensures repo.TreeOf("master-tmp") == Without(old(repo.TreeOf("master-tmp")), Elems(etcRemoved))
  {
    var masterNames := repo.LsTree("master-tmp");
    var masterRemove := SelectNames(etcRemoved, p => p in masterNames);
    FilterMembers(etcRemoved, p => p in masterNames);
    assert Without(repo.TreeOf("master-tmp"), Elems(masterRemove)) == Without(repo.TreeOf("master-tmp"), Elems(etcRemoved));
    RemoveIn(repo, "master-tmp", masterRemove);
  }

  // ---------------------------------------------------------------------
  // The temporary branches
  // ---------------------------------------------------------------------

  /**
   * create_tmp_branches: etc and master each get a fresh "-tmp" branch at
   * their head, an older one being deleted first; HEAD ends on master-tmp.
   */
  method CreateTmpBranches(repo: GitRepo)
    requires repo.Valid() && "etc" in repo.heads && "master" in repo.heads
    modifies repo
    ensures repo.Valid() && repo.commits == old(repo.commits) && repo.tags == old(repo.tags)
    ensures repo.heads == old(repo.heads)["etc-tmp" := old(repo.heads["etc"])]["master-tmp" := old(repo.heads["master"])]
    ensures repo.curbranch == Some("master-tmp")
  {
    CreateTmpBranch(repo, "etc", "etc-tmp");
    CreateTmpBranch(repo, "master", "master-tmp");
  }

  /** One turn of the loop of create_tmp_branches. */
  method CreateTmpBranch(repo: GitRepo, branch: string, tmp: string)
    requires repo.Valid() && branch in repo.heads && "master" in repo.heads
    requires tmp != branch && tmp != "master"
    modifies repo
    ensures repo.Valid() && repo.commits == old(repo.commits) && repo.tags == old(repo.tags)
    ensures repo.heads == old(repo.heads)[tmp := old(repo.heads[branch])]
    ensures repo.curbranch == Some(tmp)
  {
    if tmp in repo.heads {
      // Removing the previous unused tmp branch.
      repo.Checkout("master", false);
      repo.DeleteBranch(tmp);
    }
    repo.Checkout(branch, false);
    repo.Checkout(tmp, true);
  }

  /**
   * remove_tmp_branches: nothing to do and False when master-tmp does not
   * exist; otherwise master and etc are fast-forwarded to their temporary
   * branches, which are deleted, HEAD ends on etc, and the result is True.
   */
  method RemoveTmpBranches(repo: GitRepo) returns (removed: bool)
    requires repo.Valid()
    requires "master-tmp" in repo.heads ==> "etc-tmp" in repo.heads && "master" in repo.heads && "etc" in repo.heads
    modifies repo
    ensures repo.Valid() && repo.commits == old(repo.commits) && repo.tags == old(repo.tags)
    ensures removed <==> "master-tmp" in old(repo.heads)
    ensures !removed ==> repo.heads == old(repo.heads) && repo.curbranch == old(repo.curbranch)
    ensures removed ==>
              repo.heads == old(repo.heads)["master" := old(repo.heads["master-tmp"])]
                                           ["etc" := old(repo.heads["etc-tmp"])] - {"master-tmp", "etc-tmp"}
              && repo.curbranch == Some("etc")
  {
    if "master-tmp" !in repo.heads {
      return false;
    }
    MergeTmpBranch(repo, "master", "master-tmp");
    MergeTmpBranch(repo, "etc", "etc-tmp");
    removed := true;
  }

  /** One turn of the loop of remove_tmp_branches: checkout, merge, delete. */
  method MergeTmpBranch(repo: GitRepo, branch: string, tmp: string)
    requires repo.Valid() && branch in repo.heads && tmp in repo.heads && tmp != branch
    modifies repo
    ensures repo.Valid() && repo.commits == old(repo.commits) && repo.tags == old(repo.tags)
    ensures repo.heads == old(repo.heads)[branch := old(repo.heads[tmp])] - {tmp}
    ensures repo.curbranch == Some(branch)
  {
    repo.Checkout(branch, false);
    repo.Merge(tmp);
    repo.DeleteBranch(tmp);
  }

  /**
   * The create/remove pair: after create_tmp_branches and commits to the
   * temporary branches only, remove_tmp_branches leaves master and etc at
   * what the temporary branches reached and no temporary branch behind.
   */
  lemma RoundTripOfTmpBranches(heads0: map<string, nat>, heads1: map<string, nat>)
    requires "etc" in heads0 && "master" in heads0
    requires heads1.Keys == heads0.Keys + {"etc-tmp", "master-tmp"}
    requires forall b :: b in heads0 && b !in {"etc-tmp", "master-tmp"} ==> heads1[b] == heads0[b]
    ensures var after := heads1["master" := heads1["master-tmp"]]["etc" := heads1["etc-tmp"]] - {"master-tmp", "etc-tmp"};
      && after.Keys == heads0.Keys - {"etc-tmp", "master-tmp"}
      && after["master"] == heads1["master-tmp"] && after["etc"] == heads1["etc-tmp"]
      && forall b :: b in after && b !in {"etc", "master"} ==> after[b] == heads0[b]
  {
  }

  // ---------------------------------------------------------------------
  // finalize
  // ---------------------------------------------------------------------

  /**
   * Timestamp.now on the etc branch: read the timestamp file of the
   * working tree, rewrite its TIMESTAMP= line and commit it (add_file);
   * FileNotFoundError when etc has no such file, the corrupted abort when
   * it has no TIMESTAMP= line.
   */
  method CommitNow(repo: GitRepo, t: int, tsName: string) returns (r: Result<()>)
    requires repo.Valid() && repo.OnBranch()
    modifies repo
    ensures repo.Valid() && repo.curbranch == old(repo.curbranch) && repo.OnlyMoved({repo.curbranch.value})
    ensures var tree := old(repo.TreeOf(repo.curbranch.value));
      && (r.Ok? <==> tsName in tree && tree[tsName].Text? && NowText(tree[tsName].text, t, tsName).Ok?)
      && (r.Ok? ==> repo.TreeOf(repo.curbranch.value) == tree[tsName := Text(NowText(tree[tsName].text, t, tsName).value)])
      && (r.Err? ==> repo.heads == old(repo.heads))
      && (tsName !in tree || !tree[tsName].Text? ==> r == Err(PyError("FileNotFoundError")))
  {
    var tree := repo.TreeOf(repo.curbranch.value);
    if tsName !in tree || !tree[tsName].Text? {
      return Err(PyError("FileNotFoundError"));
    }
    var content := Now(tree[tsName].text, t, tsName);
    if content.Err? {
      return Err(content.failure);
    }
    var _ := repo.Commit(map[tsName := Text(content.value)]);
    assert tree + map[tsName := Text(content.value)] == tree[tsName := Text(content.value)];
    r := Ok(());
  }

  /**
   * finalize: remove_tmp_branches and, only when it did something, bump
   * the timestamp on etc to `t` (time.time()).
   */
  method Finalize(repo: GitRepo, t: int, tsName: string) returns (r: Result<()>)
    requires repo.Valid()
    requires "master-tmp" in repo.heads ==> "etc-tmp" in repo.heads && "master" in repo.heads && "etc" in repo.heads
    modifies repo
    ensures repo.Valid() && old(repo.commits) <= repo.commits && repo.tags == old(repo.tags)
    ensures "master-tmp" !in old(repo.heads) ==>
              r.Ok? && repo.heads == old(repo.heads) && repo.commits == old(repo.commits)
              && repo.curbranch == old(repo.curbranch)
    ensures "master-tmp" in old(repo.heads) ==>
              var etcTree := old(repo.commits[repo.heads["etc-tmp"]]);
              && repo.curbranch == Some("etc")
              && repo.heads.Keys == old(repo.heads.Keys) - {"master-tmp", "etc-tmp"}
              && repo.heads["master"] == old(repo.heads["master-tmp"])
              && (forall b :: b in repo.heads && b !in {"etc", "master"} ==> repo.heads[b] == old(repo.heads[b]))
              && (r.Ok? <==> tsName in etcTree && etcTree[tsName].Text? && NowText(etcTree[tsName].text, t, tsName).Ok?)
              && (r.Ok? ==> repo.TreeOf("etc") == etcTree[tsName := Text(NowText(etcTree[tsName].text, t, tsName).value)])
              && (r.Err? ==> repo.heads["etc"] == old(repo.heads["etc-tmp"]))
  {
    var removed := RemoveTmpBranches(repo);
    if !removed {
      return Ok(());
    }
    // The merges leave HEAD on etc.
    r := CommitNow(repo, t, tsName);
  }

  // ---------------------------------------------------------------------
  // Reading the timestamp, copying from /etc and committing listed files
  // ---------------------------------------------------------------------

  /**
   * Timestamp.value on the tree of the checked out branch: opening a
   * missing timestamp file raises FileNotFoundError.
   */
  function StampIn(t: Tree, tsName: string): (r: Result<int>)
    ensures tsName !in t || !t[tsName].Text? ==> r == Err(PyError("FileNotFoundError"))
    ensures r.Err? ==> r.failure == PyError("FileNotFoundError") || r.failure == PyError("ValueError")
                       || r.failure == Abort(Corrupted(tsName))
  {
    if tsName !in t || !t[tsName].Text? then Err(PyError("FileNotFoundError"))
    else TimestampValue(t[tsName].text, tsName)
  }

  /**
   * What finalize writes on etc is what the next update reads: the
   * timestamp file that Timestamp.now rewrote with `t` holds the value `t`.
   */
  lemma FinalizedStampReadsBack(tree: Tree, t: int, tsName: string)
    requires tsName in tree && tree[tsName].Text? && NowText(tree[tsName].text, t, tsName).Ok?
    ensures StampIn(tree[tsName := Text(NowText(tree[tsName].text, t, tsName).value)], tsName) == Ok(t)
  {
    NowReadsBack(tree[tsName].text, t, tsName);
  }

  /** The copies copy_from_etc makes of the readable files among `files`, as commit changes. */
  function LiveCopied(live: map<Path, Option<Digest>>, files: seq<Path>): (t: Tree)
    ensures forall p :: p in t <==> p in files && LiveOf(live, p).Some?
    ensures forall p :: p in t ==> RepoDigest(t, p) == LiveOf(live, p)
  {
    map p | p in Elems(files) && LiveOf(live, p).Some? :: Content(LiveOf(live, p).value)
  }

  /**
   * The loop of copy_from_etc calls over `files`: shutil.copy raises on
   * the first file that cannot be read; otherwise the copies.
   */
  method CopyLive(live: map<Path, Option<Digest>>, files: seq<Path>) returns (r: Result<Tree>)
    ensures r.Ok? <==> forall p :: p in files ==> LiveOf(live, p).Some?
    ensures r.Ok? ==> r.value == LiveCopied(live, files) && r.value.Keys == Elems(files)
    ensures r.Err? ==> r.failure == PyError("OSError")
  {
    var copied: Tree := map[];
    var i := 0;
    while i < |files|
      invariant 0 <= i <= |files|
      invariant forall p :: p in files[..i] ==> LiveOf(live, p).Some?
      invariant copied == LiveCopied(live, files[..i])
    {
      var d := LiveOf(live, files[i]);
      if d.None? {
        return Err(PyError("OSError"));
      }
      assert files[..i + 1] == files[..i] + [files[i]];
      copied := copied[files[i] := Content(d.value)];
      i := i + 1;
    }
    assert files[..i] == files;
    r := Ok(copied);
  }

  /**
   * `if files: repo.commit(files, msg)`: a commit of `changes` on the
   * current branch when there are files; returns it.
   */
  method CommitListed(repo: GitRepo, files: seq<Path>, changes: Tree) returns (id: Option<nat>)
    requires repo.Valid() && repo.OnBranch()
    requires files == [] ==> changes == map[]
    modifies repo
    ensures repo.Valid() && repo.curbranch == old(repo.curbranch) && repo.OnlyMoved({repo.curbranch.value})
    ensures repo.TreeOf(repo.curbranch.value) == old(repo.TreeOf(repo.curbranch.value)) + changes
    ensures id.Some? <==> files != []
    ensures id.Some? ==> repo.heads[repo.curbranch.value] == id.value
  {
    if files != [] {
      var c := repo.Commit(changes);
      id := Some(c);
    } else {
      id := None;
      assert repo.TreeOf(repo.curbranch.value) + changes == repo.TreeOf(repo.curbranch.value);
    }
  }

  /**
   * new_packages().values(): the archives chosen among the entries, in
   * the order their names first entered the packages dictionary.
   */
  ghost predicate LegacyArchives(entries: seq<PkgFile>, timestamp: int, excludePkgs: seq<string>,
                                 pkgs: seq<PkgFile>, selected: map<string, nat>, order: seq<string>)
  {
    PickedFrom(entries, timestamp, excludePkgs, selected)
    && Distinct(order) && Elems(order) == selected.Keys
    && |pkgs| == |order|
    && forall k :: 0 <= k < |order| ==> pkgs[k] == entries[selected[order[k]]]
  }

  /** The archives new_packages returns for the scan. */
  method ChooseLegacy(entries: seq<PkgFile>, timestamp: int, excludePkgs: seq<string>)
    returns (pkgs: seq<PkgFile>, ghost selected: map<string, nat>, ghost order: seq<string>)
    ensures LegacyArchives(entries, timestamp, excludePkgs, pkgs, selected, order)
  {
    var sel, ord := NewPackages(entries, timestamp, excludePkgs);
    pkgs := ChosenArchives(entries, sel, ord);
    selected, order := sel, ord;
  }
}
