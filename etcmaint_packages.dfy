/**
 * The package side of etcmaint/etcmaint.py: choosing the package archives
 * of the cache that are new since the previous run (new_packages, with one
 * timestamp cursor per package name kept in the timestamps-tmp branch) and
 * extracting their etc files into the etc-tmp working tree (scan), each
 * file's previous digest being read before the extraction overwrites it.
 */
module EtcMaintPackages {
  import opened Common
  import opened PyText
  import opened Digests
  import opened GitStore
  import opened EtcMaintText

  /** A directory entry of the pacman cache (or of the AUR tree), in walk order. */
  datatype PkgFile = PkgFile(fileName: string, isFile: bool, mtime: int, members: seq<Member>)

  datatype MemberKind = RegularFile | SymbolicLink | HardLink | Directory | Fifo | CharDevice | BlockDevice

  /**
   * A tar member: its path, its type, the digest the extracted file has in
   * the repository, and its permission bits.
   */
  datatype Member = Member(name: Path, kind: MemberKind, digest: Digest, mode: bv32)

  // ---------------------------------------------------------------------
  // new_packages
  // ---------------------------------------------------------------------

  /**
   * The package name of an archive: what precedes the version, release
   * and architecture fields of `name-version-release-arch.pkg.tar.xz`, when
   * rsplit('-', 3) finds all four fields.
   */
  function PackageName(fileName: string): (r: Option<string>)
    ensures r.Some? <==> Count(fileName, '-') >= 3
  {
    RSplitFull(fileName, '-', 3);
    var parts := RSplit(fileName, '-', 3);
    if |parts| != 4 then None else Some(parts[0])
  }

  /** The package name is followed by a dash and the other fields. */
  lemma PackageNamePrefix(fileName: string)
    requires PackageName(fileName).Some?
    ensures exists tail :: fileName == PackageName(fileName).value + "-" + tail
  {
    var parts := RSplit(fileName, '-', 3);
    RSplitJoin(fileName, '-', 3);
    assert fileName == parts[0] + "-" + Join("-", parts[1..]) by {
      assert parts == [parts[0]] + parts[1..];
    }
  }

  /**
   * The name under which new_packages can select an archive, before
   * comparing it with the other archives of that name: a file ending in
   * .pkg.tar.xz, with a well-formed name, newer than the package's cursor,
   * and not matched by an excluded prefix.
   */
  function CandidateName(e: PkgFile, tracked: map<string, int>, excludePkgs: seq<string>): (r: Option<string>)
    ensures r.Some? ==> PackageName(e.fileName) == r && e.isFile && EndsWith(e.fileName, ".pkg.tar.xz")
    ensures r.Some? ==> !HasPrefix(r.value, excludePkgs)
    ensures r.Some? && r.value in tracked ==> e.mtime > tracked[r.value]
  {
    if !e.isFile || !EndsWith(e.fileName, ".pkg.tar.xz") then None
    else
      match PackageName(e.fileName)
      case None => None
      case Some(name) =>
        if (name in tracked && e.mtime <= tracked[name]) || HasPrefix(name, excludePkgs) then None
        else Some(name)
  }

  /**
   * Of the candidates of each name among the first n, `selected` holds the
   * first one with the latest mtime, and holds no other name.
   */
  predicate Chosen(cands: seq<Option<string>>, mtimes: seq<int>, n: nat, selected: map<string, nat>)
  {
    n <= |cands| == |mtimes|
    && (forall name :: name in selected ==> selected[name] < n && cands[selected[name]] == Some(name))
    && (forall j :: 0 <= j < n && cands[j].Some? ==>
          cands[j].value in selected && Dominated(mtimes, j, selected[cands[j].value]))
  }

  /** Entry j loses to entry s: s is newer, or as new and seen first. */
  predicate Dominated(mtimes: seq<int>, j: nat, s: nat)
    requires j < |mtimes| && s < |mtimes|
  {
    mtimes[j] < mtimes[s] || (mtimes[j] == mtimes[s] && s <= j)
  }

  /** The name each entry is a candidate under, if any. */
  function Candidates(entries: seq<PkgFile>, tracked: map<string, int>, excludePkgs: seq<string>): seq<Option<string>>
  {
    MapSeq(entries, (e: PkgFile) => CandidateName(e, tracked, excludePkgs))
  }

  /** The selection new_packages makes among the entries. */
  predicate SelectionOf(entries: seq<PkgFile>, tracked: map<string, int>, excludePkgs: seq<string>,
                        selected: map<string, nat>)
  {
    Chosen(Candidates(entries, tracked, excludePkgs), MapSeq(entries, (e: PkgFile) => e.mtime), |entries|, selected)
  }

  /** Every chosen index is an index of the entries. */
  lemma SelectionInRange(entries: seq<PkgFile>, tracked: map<string, int>, excludePkgs: seq<string>,
                         selected: map<string, nat>)
    requires SelectionOf(entries, tracked, excludePkgs, selected)
    ensures forall name :: name in selected ==> selected[name] < |entries|
  {
  }

  /** An entry that is no candidate, or no newer than the archive chosen for its name, changes nothing. */
  lemma SelectionSkip(cands: seq<Option<string>>, mtimes: seq<int>, n: nat, selected: map<string, nat>)
    requires n < |cands| && Chosen(cands, mtimes, n, selected)
    requires cands[n].Some? ==> cands[n].value in selected && mtimes[n] <= mtimes[selected[cands[n].value]]
    ensures Chosen(cands, mtimes, n + 1, selected)
  {
  }

  /** A candidate newer than the archive chosen for its name replaces it. */
  lemma SelectionTake(cands: seq<Option<string>>, mtimes: seq<int>, n: nat, selected: map<string, nat>)
    requires n < |cands| && Chosen(cands, mtimes, n, selected) && cands[n].Some?
    requires cands[n].value in selected ==> mtimes[selected[cands[n].value]] < mtimes[n]
    ensures Chosen(cands, mtimes, n + 1, selected[cands[n].value := n])
  {
    var name := cands[n].value;
    var sel := selected[name := n];
    forall j | 0 <= j < n + 1 && cands[j].Some?
      ensures cands[j].value in sel && Dominated(mtimes, j, sel[cands[j].value])
    {
      if j < n && cands[j].value == name {
        assert Dominated(mtimes, j, selected[name]);
      }
    }
  }

  /** Taking the entries in order, the latest one of each name wins, the first of equals. */
  lemma ChosenLatest(cands: seq<Option<string>>, mtimes: seq<int>, selected: map<string, nat>, j: nat)
    requires Chosen(cands, mtimes, |cands|, selected) && j < |cands| && cands[j].Some?
    ensures cands[j].value in selected
    ensures mtimes[j] <= mtimes[selected[cands[j].value]]
    ensures mtimes[j] == mtimes[selected[cands[j].value]] ==> selected[cands[j].value] <= j
  {
  }

  /**
   * The first candidate of each name, in entry order: the names of the
   * candidates, each once, in the order its first candidate comes.
   */
  function FirstSeen(cands: seq<Option<string>>): seq<string>
    decreases |cands|
  {
    if cands == [] then []
    else
      var init := FirstSeen(cands[..|cands| - 1]);
      var c := cands[|cands| - 1];
      if c.Some? && c.value !in init then init + [c.value] else init
  }

  /** Each candidate's name is listed, once, and nothing else is. */
  lemma {:induction false} FirstSeenMembers(cands: seq<Option<string>>)
    ensures Distinct(FirstSeen(cands))
    ensures forall x :: x in FirstSeen(cands) <==> Some(x) in cands
    decreases |cands|
  {
    if cands != [] {
      var init := cands[..|cands| - 1];
      FirstSeenMembers(init);
      assert cands == init + [cands[|cands| - 1]];
    }
  }

  /** The names of a prefix of the entries are a prefix of the names of all of them. */
  lemma {:induction false} FirstSeenPrefix(cands: seq<Option<string>>, k: nat)
    requires k <= |cands|
    ensures FirstSeen(cands[..k]) <= FirstSeen(cands)
    decreases |cands| - k
  {
    if k < |cands| {
      FirstSeenPrefix(cands, k + 1);
      assert cands[..k + 1][..k] == cands[..k];
    } else {
      assert cands[..k] == cands;
    }
  }

  /** One more entry adds its candidate's name when it is not listed yet. */
  lemma FirstSeenSnoc(cands: seq<Option<string>>, i: nat)
    requires i < |cands|
    ensures FirstSeen(cands[..i + 1]) == FirstSeen(cands[..i])
              + (if cands[i].Some? && cands[i].value !in FirstSeen(cands[..i]) then [cands[i].value] else [])
  {
    assert cands[..i + 1][..i] == cands[..i];
  }

  /** The first candidate of a name appends the name to those seen before it. */
  lemma FirstSeenFirst(cands: seq<Option<string>>, j: nat)
    requires j < |cands| && cands[j].Some? && Some(cands[j].value) !in cands[..j]
    ensures FirstSeen(cands[..j + 1]) == FirstSeen(cands[..j]) + [cands[j].value]
  {
    FirstSeenMembers(cands[..j]);
    assert cands[..j + 1][..j] == cands[..j];
    assert cands[..j + 1][j] == cands[j];
  }

  /**
   * The order of the names: of two first candidates, the earlier one's
   * name is listed before the later one's.
   */
  lemma FirstSeenOrder(cands: seq<Option<string>>, j: nat, k: nat)
    requires j < k < |cands| && cands[j].Some? && cands[k].Some?
    requires Some(cands[j].value) !in cands[..j] && Some(cands[k].value) !in cands[..k]
    ensures var r := FirstSeen(cands);
      exists a, b :: 0 <= a < b < |r| && r[a] == cands[j].value && r[b] == cands[k].value
  {
    var r := FirstSeen(cands);
    var pj, pk := FirstSeen(cands[..j]), FirstSeen(cands[..k]);
    FirstSeenFirst(cands, j);
    FirstSeenFirst(cands, k);
    FirstSeenPrefix(cands, j + 1);
    FirstSeenPrefix(cands, k + 1);
    assert pj + [cands[j].value] <= r;
    assert pk + [cands[k].value] <= r;
    assert cands[..k][..j + 1] == cands[..j + 1];
    FirstSeenPrefix(cands[..k], j + 1);
    assert pj + [cands[j].value] <= pk;
    assert r[|pj|] == cands[j].value;
    assert r[|pk|] == cands[k].value;
  }

  /** The float() value of a timestamps file: the mtime it holds, or None when it holds no number. */
  function StampValue(b: Blob): Option<int>
  {
    if b.Text? && ParseInt(b.text).Ok? then Some(ParseInt(b.text).value) else None
  }

  /**
   * The cursors: the mtime held by the timestamps file of each tracked
   * package (every file of timestamps-tmp but .gitignore) that holds one.
   */
  function Cursor(t: Tree): map<string, int>
  {
    map n | n in t && n != ".gitignore" && StampValue(t[n]).Some? :: StampValue(t[n]).value
  }

  /**
   * The entry makes newer_exists_in read the timestamps file of a tracked
   * package, and float() raises ValueError on it: an archive with a
   * well-formed name whose package's file holds no number.
   */
  predicate StampUnreadable(e: PkgFile, t: Tree)
  {
    && e.isFile && EndsWith(e.fileName, ".pkg.tar.xz") && PackageName(e.fileName).Some?
    && var name := PackageName(e.fileName).value;
       name in t && name != ".gitignore" && StampValue(t[name]).None?
  }

  /** new_packages raises ValueError: one of the entries makes it read a file that holds no number. */
  predicate CursorFails(entries: seq<PkgFile>, t: Tree)
  {
    exists i :: 0 <= i < |entries| && StampUnreadable(entries[i], t)
  }

  /**
   * A timestamps file is read only for a package met among the entries:
   * what the file of any other package holds does not matter.
   */
  lemma CursorFailsOnlyOnScannedNames(entries: seq<PkgFile>, t: Tree, n: string, b: Blob)
    requires forall i :: 0 <= i < |entries| ==> PackageName(entries[i].fileName) != Some(n)
    ensures CursorFails(entries, t[n := b]) <==> CursorFails(entries, t)
  {
    forall i | 0 <= i < |entries|
      ensures StampUnreadable(entries[i], t[n := b]) == StampUnreadable(entries[i], t)
    {
    }
  }

  /**
   * The body of the loop of new_packages for one directory entry: whether
   * reading the cursor fails, whether the archive is taken, under which
   * name, and the list of excluded names it updates. `chosen` maps each
   * name already taken to its mtime.
   */
  method Consider(e: PkgFile, stamps: Tree, excludePkgs: seq<string>,
                  excluded: seq<string>, chosen: map<string, int>)
    returns (failed: bool, take: bool, name: string, excluded': seq<string>)
    requires forall x :: x in excluded ==> HasPrefix(x, excludePkgs)
    ensures failed <==> StampUnreadable(e, stamps)
    ensures forall x :: x in excluded' ==> HasPrefix(x, excludePkgs)
    ensures take ==> !failed && CandidateName(e, Cursor(stamps), excludePkgs) == Some(name)
                     && (name in chosen ==> chosen[name] < e.mtime)
    ensures !take && !failed && CandidateName(e, Cursor(stamps), excludePkgs).Some? ==>
              var n := CandidateName(e, Cursor(stamps), excludePkgs).value;
              n in chosen && e.mtime <= chosen[n]
  {
    failed, take, name, excluded' := false, false, "", excluded;
    if !e.isFile || !EndsWith(e.fileName, ".pkg.tar.xz") {
      return;
    }
    var packageName := PackageName(e.fileName);
    if packageName.None? {
      // warn('ignoring incorrect package name')
      return;
    }
    name := packageName.value;
    // newer_exists_in(tracked, ...): float() of the package's timestamps file
    if name in stamps && name != ".gitignore" {
      var stamp := StampValue(stamps[name]);
      if stamp.None? {
        failed := true;
        return;
      }
      if e.mtime <= stamp.value {
        return;
      }
    }
    if name in chosen && e.mtime <= chosen[name] {
      return;
    }
    if name in excluded || HasPrefix(name, excludePkgs) {
      if name !in excluded {
        excluded' := excluded + [name];
      }
      return;
    }
    take := true;
  }

  /**
   * The dictionaries of new_packages after the first i entries, given the
   * name each entry is a candidate under and each entry's mtime: the
   * choice so far, the mtime of each chosen archive, and the chosen names
   * in the order of their first candidates.
   */
  ghost predicate Scanned(cands: seq<Option<string>>, mtimes: seq<int>, i: nat,
                          timestamps: map<string, int>, selected: map<string, nat>, order: seq<string>)
  {
    && Chosen(cands, mtimes, i, selected)
    && timestamps.Keys == selected.Keys
    && (forall name :: name in selected ==> timestamps[name] == mtimes[selected[name]])
    && order == FirstSeen(cands[..i])
    && (forall x :: x in order <==> x in selected)
  }

  /** Taking the next entry makes it its name's choice, and lists its name last when it is new. */
  lemma ScannedTake(cands: seq<Option<string>>, mtimes: seq<int>, i: nat,
                    timestamps: map<string, int>, selected: map<string, nat>, order: seq<string>)
    requires i < |cands| && Scanned(cands, mtimes, i, timestamps, selected, order) && cands[i].Some?
    requires cands[i].value in timestamps ==> timestamps[cands[i].value] < mtimes[i]
    ensures var n := cands[i].value;
      Scanned(cands, mtimes, i + 1, timestamps[n := mtimes[i]], selected[n := i],
              if n in selected then order else order + [n])
  {
    var n := cands[i].value;
    SelectionTake(cands, mtimes, i, selected);
    FirstSeenSnoc(cands, i);
    var timestamps', selected' := timestamps[n := mtimes[i]], selected[n := i];
    assert timestamps'.Keys == selected'.Keys;
    assert forall name :: name in selected' ==> timestamps'[name] == mtimes[selected'[name]];
  }

  /** Skipping the next entry changes nothing. */
  lemma ScannedSkip(cands: seq<Option<string>>, mtimes: seq<int>, i: nat,
                    timestamps: map<string, int>, selected: map<string, nat>, order: seq<string>)
    requires i < |cands| && Scanned(cands, mtimes, i, timestamps, selected, order)
    requires cands[i].Some? ==> cands[i].value in timestamps && mtimes[i] <= timestamps[cands[i].value]
    ensures Scanned(cands, mtimes, i + 1, timestamps, selected, order)
  {
    SelectionSkip(cands, mtimes, i, selected);
    FirstSeenSnoc(cands, i);
  }

  /**
   * One turn of the loop of new_packages: consider the entry, and record
   * it in the dictionaries when it is taken.
   */
  method ScanEntry(entries: seq<PkgFile>, i: nat, stamps: Tree, excludePkgs: seq<string>, excluded: seq<string>,
                   timestamps: map<string, int>, selected: map<string, nat>, order: seq<string>,
                   ghost cands: seq<Option<string>>, ghost mtimes: seq<int>)
    returns (failed: bool, excluded': seq<string>,
             timestamps': map<string, int>, selected': map<string, nat>, order': seq<string>)
    requires Scanned(cands, mtimes, i, timestamps, selected, order)
    requires i < |entries| == |cands|
    requires cands[i] == CandidateName(entries[i], Cursor(stamps), excludePkgs) && mtimes[i] == entries[i].mtime
    requires forall x :: x in excluded ==> HasPrefix(x, excludePkgs)
    ensures failed <==> StampUnreadable(entries[i], stamps)
    ensures !failed ==> Scanned(cands, mtimes, i + 1, timestamps', selected', order')
    ensures forall x :: x in excluded' ==> HasPrefix(x, excludePkgs)
  {
    var e := entries[i];
    var take, name;
    failed, take, name, excluded' := Consider(e, stamps, excludePkgs, excluded, timestamps);
    timestamps', selected', order' := timestamps, selected, order;
    if failed {
      return;
    }
    if take {
      ScannedTake(cands, mtimes, i, timestamps, selected, order);
      if name !in selected {
        order' := order + [name];
      }
      timestamps' := timestamps[name := e.mtime];
      selected' := selected[name := i];
    } else {
      ScannedSkip(cands, mtimes, i, timestamps, selected, order);
    }
  }

  /**
   * new_packages: scan the entries, skip what is not an archive or has a
   * malformed name, what is not newer than the package's cursor (read from
   * its timestamps file in `stamps`) or than the archive already chosen for
   * that name, and what an excluded prefix matches. Fails as float() does
   * on the first timestamps file read that holds no number. Otherwise
   * returns, per package name, the index of the chosen archive and its
   * mtime (the new cursor), and the names in the order they were first
   * chosen, the order of the keys of the new_pkgs dictionary.
   */
  method NewPackages(entries: seq<PkgFile>, stamps: Tree, excludePkgs: seq<string>)
    returns (failed: bool, timestamps: map<string, int>, selected: map<string, nat>, order: seq<string>)
    ensures failed <==> CursorFails(entries, stamps)
    ensures !failed ==> SelectionOf(entries, Cursor(stamps), excludePkgs, selected)
    ensures !failed ==> timestamps.Keys == selected.Keys
    ensures !failed ==> forall name :: name in selected ==> timestamps[name] == entries[selected[name]].mtime
    ensures !failed ==> forall name :: name in timestamps && name in Cursor(stamps) ==> timestamps[name] > Cursor(stamps)[name]
    ensures !failed ==> order == FirstSeen(Candidates(entries, Cursor(stamps), excludePkgs))
    ensures !failed ==> Elems(order) == selected.Keys
  {
    ghost var cands := Candidates(entries, Cursor(stamps), excludePkgs);
    ghost var mtimes := MapSeq(entries, (e: PkgFile) => e.mtime);
    failed, timestamps, selected, order := ScanAll(entries, stamps, excludePkgs, cands, mtimes);
    if !failed {
      NewPackagesScanned(entries, Cursor(stamps), excludePkgs, timestamps, selected, order);
    }
  }

  /** The loop of new_packages, one ScanEntry per entry. */
  method ScanAll(entries: seq<PkgFile>, stamps: Tree, excludePkgs: seq<string>,
                 ghost cands: seq<Option<string>>, ghost mtimes: seq<int>)
    returns (failed: bool, timestamps: map<string, int>, selected: map<string, nat>, order: seq<string>)
    requires cands == Candidates(entries, Cursor(stamps), excludePkgs)
    requires mtimes == MapSeq(entries, (e: PkgFile) => e.mtime)
    ensures failed <==> CursorFails(entries, stamps)
    ensures !failed ==> Scanned(cands, mtimes, |entries|, timestamps, selected, order)
  {
    failed := false;
    timestamps := map[];
    selected := map[];
    order := [];
    var excluded: seq<string> := [];
    var i := 0;
    while i < |entries|
      invariant 0 <= i <= |entries|
      invariant forall j :: 0 <= j < i ==> !StampUnreadable(entries[j], stamps)
      invariant Scanned(cands, mtimes, i, timestamps, selected, order)
      invariant forall x :: x in excluded ==> HasPrefix(x, excludePkgs)
    {
      failed, excluded, timestamps, selected, order :=
        ScanEntry(entries, i, stamps, excludePkgs, excluded, timestamps, selected, order, cands, mtimes);
      if failed {
        return;
      }
      i := i + 1;
    }
  }

  /** What the scan of all the entries gives. */
  lemma NewPackagesScanned(entries: seq<PkgFile>, tracked: map<string, int>, excludePkgs: seq<string>,
                           timestamps: map<string, int>, selected: map<string, nat>, order: seq<string>)
    requires Scanned(Candidates(entries, tracked, excludePkgs), MapSeq(entries, (e: PkgFile) => e.mtime),
                     |entries|, timestamps, selected, order)
    ensures SelectionOf(entries, tracked, excludePkgs, selected)
    ensures forall name :: name in selected ==> timestamps[name] == entries[selected[name]].mtime
    ensures forall name :: name in timestamps && name in tracked ==> timestamps[name] > tracked[name]
    ensures order == FirstSeen(Candidates(entries, tracked, excludePkgs))
    ensures Elems(order) == selected.Keys
  {
    var cands := Candidates(entries, tracked, excludePkgs);
    var mtimes := MapSeq(entries, (e: PkgFile) => e.mtime);
    assert cands[..|entries|] == cands;
    forall name | name in selected
      ensures timestamps[name] == entries[selected[name]].mtime
      ensures name in tracked ==> timestamps[name] > tracked[name]
    {
      var k := selected[name];
      assert cands[k] == CandidateName(entries[k], tracked, excludePkgs) && mtimes[k] == entries[k].mtime;
    }
  }

  // ---------------------------------------------------------------------
  // scan
  // ---------------------------------------------------------------------

  /** etc_files_filter: regular files, symlinks and hard links under etc, not excluded by name. */
  predicate Kept(m: Member, excludeFiles: seq<string>)
  {
    StartsWith(m.name, "etc")
    && (m.kind == RegularFile || m.kind == SymbolicLink || m.kind == HardLink)
    && m.name !in excludeFiles
  }

  /** The members of a package that scan extracts, in archive order. */
  function KeptMembers(pkg: PkgFile, excludeFiles: seq<string>): (r: seq<Member>)
    ensures forall m :: m in r <==> m in pkg.members && Kept(m, excludeFiles)
  {
    FilterMembers(pkg.members, (m: Member) => Kept(m, excludeFiles));
    Filter(pkg.members, (m: Member) => Kept(m, excludeFiles))
  }

  /** RW_ACCESS = S_IWUSR | S_IRUSR */
  const RwAccess: bv32 := 0x180

  /** The mode scan gives an extracted file that etc-tmp does not track. */
  function OwnerReadWrite(mode: bv32): (r: bv32)
    ensures r & RwAccess == RwAccess
    ensures r & !RwAccess == mode & !RwAccess
    ensures mode & RwAccess == RwAccess ==> r == mode
  {
    if mode & RwAccess != RwAccess then mode | RwAccess else mode
  }

  /** The digest an EtcPath of the working tree has: b'' for a missing file. */
  function DigestIn(work: Tree, p: Path): Digest
  {
    if p in work && work[p].Content? then work[p].digest else Unreadable
  }

  /** The paths a sequence of members extracts to. */
  function Names(ms: seq<Member>): (r: set<Path>)
    ensures forall m :: m in ms ==> m.name in r
    decreases |ms|
  {
    if ms == [] then {} else Names(ms[..|ms| - 1]) + {ms[|ms| - 1].name}
  }

  /** tar.extractall: the members in order, a later one overwriting an earlier one. */
  function Overlay(work: Tree, ms: seq<Member>): Tree
    decreases |ms|
  {
    if ms == [] then work
    else
      var m := ms[|ms| - 1];
      Overlay(work, ms[..|ms| - 1])[m.name := Content(m.digest)]
  }

  /** Extracting adds the members' paths to the tree and leaves every other file as it was. */
  lemma {:induction false} OverlayEffect(work: Tree, ms: seq<Member>)
    ensures Overlay(work, ms).Keys == work.Keys + Names(ms)
    ensures forall p :: p in work && p !in Names(ms) ==> Overlay(work, ms)[p] == work[p]
    decreases |ms|
  {
    if ms != [] {
      OverlayEffect(work, ms[..|ms| - 1]);
    }
  }

  /** The modes after extractall: a later member's mode overwrites an earlier one's. */
  function Modes(modes: map<Path, bv32>, ms: seq<Member>): map<Path, bv32>
    decreases |ms|
  {
    if ms == [] then modes
    else
      var m := ms[|ms| - 1];
      Modes(modes, ms[..|ms| - 1])[m.name := m.mode]
  }

  lemma {:induction false} ModesKeys(modes: map<Path, bv32>, ms: seq<Member>)
    ensures Modes(modes, ms).Keys == modes.Keys + Names(ms)
    decreases |ms|
  {
    if ms != [] {
      ModesKeys(modes, ms[..|ms| - 1]);
    }
  }

  /**
   * The state scan builds: the names of the `extracted` dictionary in its
   * order, the digest remembered for each name, the working tree, and the
   * mode of each extracted file.
   */
  datatype Extraction = Extraction(order: seq<Path>, prev: map<Path, Digest>, work: Tree, modes: map<Path, bv32>)

  /** The order lists the keys of the dictionary, each once. */
  ghost predicate Indexed(x: Extraction)
  {
    Distinct(x.order) && forall p :: p in x.order <==> p in x.prev
  }

  /**
   * The loop of extract_from: every member's digest read in `before` and
   * recorded under its name; a name seen again keeps its place in the
   * order and takes the new digest.
   */
  function Remember(x: Extraction, before: Tree, ms: seq<Member>): Extraction
    decreases |ms|
  {
    if ms == [] then x
    else
      var y := Remember(x, before, ms[..|ms| - 1]);
      var m := ms[|ms| - 1];
      Extraction(if m.name in y.prev then y.order else y.order + [m.name],
                 y.prev[m.name := DigestIn(before, m.name)], y.work, y.modes)
  }

  /**
   * Every member's path is remembered with the digest it has in `before`;
   * the other names keep theirs, and the tree is not touched.
   */
  lemma {:induction false} RememberEffect(x: Extraction, before: Tree, ms: seq<Member>)
    ensures var r := Remember(x, before, ms);
      && r.work == x.work && r.modes == x.modes
      && r.prev.Keys == x.prev.Keys + Names(ms)
      && (forall p :: p in Names(ms) ==> r.prev[p] == DigestIn(before, p))
      && (forall p :: p in x.prev && p !in Names(ms) ==> r.prev[p] == x.prev[p])
    decreases |ms|
  {
    if ms != [] {
      RememberEffect(x, before, ms[..|ms| - 1]);
    }
  }

  /** The dictionary's order keeps listing each of its names once. */
  lemma {:induction false} RememberIndexed(x: Extraction, before: Tree, ms: seq<Member>)
    requires Indexed(x)
    ensures Indexed(Remember(x, before, ms))
    decreases |ms|
  {
    if ms != [] {
      RememberIndexed(x, before, ms[..|ms| - 1]);
      var y := Remember(x, before, ms[..|ms| - 1]);
      var m := ms[|ms| - 1];
      if m.name !in y.prev {
        assert m.name !in y.order;
      }
    }
  }

  /** extract_from(pkg): remember the digests, then extract. */
  function ExtractFrom(x: Extraction, pkg: PkgFile, excludeFiles: seq<string>): Extraction
  {
    var kept := KeptMembers(pkg, excludeFiles);
    var y := Remember(x, x.work, kept);
    Extraction(y.order, y.prev, Overlay(x.work, kept), Modes(x.modes, kept))
  }

  /**
   * Extracting a package adds its kept names to the dictionary, with the
   * digest each had in the working tree before; the rest of the tree and
   * of the dictionary is unchanged.
   */
  lemma ExtractFromEffect(x: Extraction, pkg: PkgFile, excludeFiles: seq<string>)
    ensures var r := ExtractFrom(x, pkg, excludeFiles);
      var names := Names(KeptMembers(pkg, excludeFiles));
      && (Indexed(x) ==> Indexed(r))
      && r.prev.Keys == x.prev.Keys + names
      && r.modes.Keys == x.modes.Keys + names
      && r.work.Keys == x.work.Keys + names
      && (forall p :: p in x.work && p !in names ==> r.work[p] == x.work[p])
      && (forall p :: p in names ==> r.prev[p] == DigestIn(x.work, p))
      && (forall p :: p in x.prev && p !in names ==> r.prev[p] == x.prev[p])
  {
    var kept := KeptMembers(pkg, excludeFiles);
    RememberEffect(x, x.work, kept);
    if Indexed(x) {
      RememberIndexed(x, x.work, kept);
    }
    OverlayEffect(x.work, kept);
    ModesKeys(x.modes, kept);
  }

  /** The names of the kept members of the packages. */
  function KeptNames(pkgs: seq<PkgFile>, excludeFiles: seq<string>): set<Path>
    decreases |pkgs|
  {
    if pkgs == [] then {}
    else KeptNames(pkgs[..|pkgs| - 1], excludeFiles) + Names(KeptMembers(pkgs[|pkgs| - 1], excludeFiles))
  }

  /** A kept name comes from one of the packages. */
  lemma {:induction false} KeptNamesFrom(pkgs: seq<PkgFile>, excludeFiles: seq<string>, p: Path)
    requires p in KeptNames(pkgs, excludeFiles)
    ensures exists i :: 0 <= i < |pkgs| && p in Names(KeptMembers(pkgs[i], excludeFiles))
    decreases |pkgs|
  {
    var n := |pkgs| - 1;
    if p !in Names(KeptMembers(pkgs[n], excludeFiles)) {
      KeptNamesFrom(pkgs[..n], excludeFiles, p);
      var i :| 0 <= i < n && p in Names(KeptMembers(pkgs[..n][i], excludeFiles));
      assert pkgs[..n][i] == pkgs[i];
    }
  }

  /** The packages extracted one after the other, into `work`. */
  function ExtractAll(work: Tree, pkgs: seq<PkgFile>, excludeFiles: seq<string>): Extraction
    decreases |pkgs|
  {
    if pkgs == [] then Extraction([], map[], work, map[])
    else ExtractFrom(ExtractAll(work, pkgs[..|pkgs| - 1], excludeFiles), pkgs[|pkgs| - 1], excludeFiles)
  }

  /**
   * The scan extracts the kept members of all the packages and nothing
   * else: the dictionary holds exactly their names, each once in its
   * order, and every other file of the working tree is left as it was.
   */
  lemma {:induction false} ExtractAllEffect(work: Tree, pkgs: seq<PkgFile>, excludeFiles: seq<string>)
    ensures var r := ExtractAll(work, pkgs, excludeFiles);
      && Indexed(r)
      && r.prev.Keys == r.modes.Keys == KeptNames(pkgs, excludeFiles)
      && r.work.Keys == work.Keys + KeptNames(pkgs, excludeFiles)
      && (forall p :: p in work && p !in KeptNames(pkgs, excludeFiles) ==> r.work[p] == work[p])
    decreases |pkgs|
  {
    if pkgs != [] {
      var n := |pkgs| - 1;
      ExtractAllEffect(work, pkgs[..n], excludeFiles);
      ExtractFromEffect(ExtractAll(work, pkgs[..n], excludeFiles), pkgs[n], excludeFiles);
    }
  }

  /** The chmod loop: an extracted file etc-tmp does not track becomes readable and writable by its owner. */
  function FixModes(x: Extraction, tracked: set<Path>): (r: map<Path, bv32>)
    ensures r.Keys == x.modes.Keys
    ensures forall p :: p in r && p !in tracked ==> r[p] & RwAccess == RwAccess
    ensures forall p :: p in r && p in tracked ==> r[p] == x.modes[p]
  {
    map p | p in x.modes :: if p !in tracked then OwnerReadWrite(x.modes[p]) else x.modes[p]
  }

  /** No two packages extract the same file. */
  predicate PairwiseDisjoint(pkgs: seq<PkgFile>, excludeFiles: seq<string>)
  {
    forall i, j :: 0 <= i < j < |pkgs| ==>
      Names(KeptMembers(pkgs[i], excludeFiles)) !! Names(KeptMembers(pkgs[j], excludeFiles))
  }

  /** Then the last package extracts none of the files the others extract. */
  lemma LastDisjoint(pkgs: seq<PkgFile>, excludeFiles: seq<string>)
    requires pkgs != [] && PairwiseDisjoint(pkgs, excludeFiles)
    ensures PairwiseDisjoint(pkgs[..|pkgs| - 1], excludeFiles)
    ensures KeptNames(pkgs[..|pkgs| - 1], excludeFiles) !! Names(KeptMembers(pkgs[|pkgs| - 1], excludeFiles))
  {
    var n := |pkgs| - 1;
    var init := pkgs[..n];
    forall p | p in KeptNames(init, excludeFiles)
      ensures p !in Names(KeptMembers(pkgs[n], excludeFiles))
    {
      KeptNamesFrom(init, excludeFiles, p);
      var i :| 0 <= i < |init| && p in Names(KeptMembers(init[i], excludeFiles));
      assert init[i] == pkgs[i];
    }
  }

  /**
   * When no two packages extract the same file, the digest remembered for
   * each extracted file is the one it had in etc-tmp before the scan: the
   * one the classification compares against.
   */
  lemma {:induction false} PrevIsBeforeScan(work: Tree, pkgs: seq<PkgFile>, excludeFiles: seq<string>)
    requires PairwiseDisjoint(pkgs, excludeFiles)
    ensures forall p :: p in ExtractAll(work, pkgs, excludeFiles).prev ==>
              ExtractAll(work, pkgs, excludeFiles).prev[p] == DigestIn(work, p)
    decreases |pkgs|
  {
    if pkgs != [] {
      var n := |pkgs| - 1;
      LastDisjoint(pkgs, excludeFiles);
      PrevIsBeforeScan(work, pkgs[..n], excludeFiles);
      ExtractAllEffect(work, pkgs[..n], excludeFiles);
      ExtractFromEffect(ExtractAll(work, pkgs[..n], excludeFiles), pkgs[n], excludeFiles);
    }
  }

  /** extract_from(pkg), on the state of the scan so far. */
  method ExtractPackage(x: Extraction, pkg: PkgFile, excludeFiles: seq<string>) returns (y: Extraction)
    ensures y == ExtractFrom(x, pkg, excludeFiles)
  {
    var kept := Filter(pkg.members, (m: Member) => Kept(m, excludeFiles));
    // Remember the digest of each existing file before extracting it.
    var order, prev := x.order, x.prev;
    var j := 0;
    while j < |kept|
      invariant 0 <= j <= |kept|
      invariant Extraction(order, prev, x.work, x.modes) == Remember(x, x.work, kept[..j])
    {
      assert kept[..j + 1][..j] == kept[..j];
      var m := kept[j];
      if m.name !in prev {
        order := order + [m.name];
      }
      prev := prev[m.name := DigestIn(x.work, m.name)];
      j := j + 1;
    }
    assert kept[..j] == kept;
    // tar.extractall(members=kept)
    var work, modes := Overlay(x.work, kept), Modes(x.modes, kept);
    y := Extraction(order, prev, work, modes);
  }

  /**
   * The chmod loop of scan, over the `extracted` dictionary: a file etc-tmp
   * does not track gets the owner's read and write bits.
   */
  method MakeWritable(x: Extraction, tracked: set<Path>) returns (modes: map<Path, bv32>)
    requires Distinct(x.order) && forall p :: p in x.modes <==> p in x.order
    ensures modes == FixModes(x, tracked)
  {
    modes := x.modes;
    var names := x.order;
    ghost var seen: set<Path> := {};
    var i := 0;
    while i < |names|
      invariant 0 <= i <= |names|
      invariant forall j :: 0 <= j < i ==> names[j] in seen
      invariant forall j :: i <= j < |names| ==> names[j] !in seen
      invariant modes.Keys == x.modes.Keys
      invariant forall p :: p in modes ==>
                  modes[p] == if p in seen && p !in tracked then OwnerReadWrite(x.modes[p]) else x.modes[p]
    {
      var p := names[i];
      if p !in tracked {
        // os.chmod(path, mode | RW_ACCESS) when a bit is missing
        modes := modes[p := OwnerReadWrite(modes[p])];
      }
      seen := seen + {p};
      i := i + 1;
    }
  }

  /**
   * scan: extract the kept members of every package into the working tree,
   * then make the files etc-tmp does not track writable by their owner.
   * Returns the `extracted` dictionary (its keys in order and the remembered
   * digests), the new working tree and the modes of the extracted files.
   */
  method Scan(pkgs: seq<PkgFile>, work: Tree, tracked: set<Path>, excludeFiles: seq<string>)
    returns (x: Extraction, modes: map<Path, bv32>)
    ensures x == ExtractAll(work, pkgs, excludeFiles)
    ensures modes == FixModes(x, tracked)
  {
    x := Extraction([], map[], work, map[]);
    var k := 0;
    while k < |pkgs|
      invariant 0 <= k <= |pkgs|
      invariant x == ExtractAll(work, pkgs[..k], excludeFiles)
    {
      assert pkgs[..k + 1][..k] == pkgs[..k];
      x := ExtractPackage(x, pkgs[k], excludeFiles);
      k := k + 1;
    }
    assert pkgs[..k] == pkgs;
    ExtractAllEffect(work, pkgs, excludeFiles);
    modes := MakeWritable(x, tracked);
  }

  // ---------------------------------------------------------------------
  // The timestamps-tmp branch: one file per package holding its cursor
  // ---------------------------------------------------------------------

  /** The files add_files writes to the timestamps branch: str(st_mtime) for each package. */
  function TimestampFiles(timestamps: map<string, int>): (t: Tree)
    ensures t.Keys == timestamps.Keys
  {
    map n | n in timestamps :: Text(IntStr(timestamps[n]))
  }

  /**
   * Committing the timestamps moves the cursor of each of their packages
   * to the recorded mtime, which reads back as written, and leaves the
   * other cursors alone.
   */
  lemma CursorAfterCommit(t: Tree, timestamps: map<string, int>)
    ensures forall n :: n in timestamps && n != ".gitignore" ==>
              n in Cursor(t + TimestampFiles(timestamps)) && Cursor(t + TimestampFiles(timestamps))[n] == timestamps[n]
    ensures forall n :: n !in timestamps ==>
              (n in Cursor(t + TimestampFiles(timestamps)) <==> n in Cursor(t))
    ensures forall n :: n in Cursor(t) && n !in timestamps ==>
              Cursor(t + TimestampFiles(timestamps))[n] == Cursor(t)[n]
  {
    var t' := t + TimestampFiles(timestamps);
    forall n | n in timestamps
      ensures StampValue(t'[n]) == Some(timestamps[n])
    {
      TimestampReadsBack(timestamps, n);
    }
  }

  /** A timestamps file parses back to the mtime it was written from. */
  lemma TimestampReadsBack(timestamps: map<string, int>, n: string)
    requires n in timestamps
    ensures TimestampFiles(timestamps)[n] == Text(IntStr(timestamps[n]))
    ensures ParseInt(IntStr(timestamps[n])) == Ok(timestamps[n])
  {
    ParseIntStr(timestamps[n], "");
    assert IntStr(timestamps[n]) + "" == IntStr(timestamps[n]);
  }
}
