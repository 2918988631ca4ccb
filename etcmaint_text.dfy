/**
 * The text-level helpers of etcmaint/etcmaint.py: the listing of /etc
 * (list_rpaths), the comma separated option lists, the reports
 * (str_file_list), the parsing of `git status --porcelain` after a failed
 * cherry-pick, the search of the cherry-pick commit by the sync command and
 * the checks made when the repository is opened.
 */
module EtcMaintText {
  import opened Common
  import opened PyText

  // ---------------------------------------------------------------------
  // Exclusions by suffix or prefix (itertools.takewhile)
  // ---------------------------------------------------------------------

  /** The length of the longest prefix of xs whose elements do not stop. */
  function TakeWhileLen(xs: seq<string>, stop: string -> bool): (n: nat)
    ensures n <= |xs|
    ensures forall i :: 0 <= i < n ==> !stop(xs[i])
    ensures n < |xs| ==> stop(xs[n])
  {
    if xs == [] || stop(xs[0]) then 0 else 1 + TakeWhileLen(xs[1..], stop)
  }

  /** The takewhile test of list_rpaths stops the scan exactly when some pattern hits. */
  lemma TakeWhileStops(xs: seq<string>, stop: string -> bool)
    ensures TakeWhileLen(xs, stop) != |xs| <==> exists i :: 0 <= i < |xs| && stop(xs[i])
  {
  }

  /** rpath ends with one of the non-empty suffixes. */
  predicate HasSuffix(rpath: string, suffixes: seq<string>)
  {
    TakeWhileLen(suffixes, x => x != "" && EndsWith(rpath, x)) != |suffixes|
  }

  /** rpath starts with one of the non-empty prefixes. */
  predicate HasPrefix(rpath: string, prefixes: seq<string>)
  {
    TakeWhileLen(prefixes, x => x != "" && StartsWith(rpath, x)) != |prefixes|
  }

  /** The empty pattern, which the default option value produces, excludes nothing. */
  lemma {:induction false} EmptyPatternsExcludeNothing(rpath: string, patterns: seq<string>)
    requires forall i :: 0 <= i < |patterns| ==> patterns[i] == ""
    ensures !HasSuffix(rpath, patterns) && !HasPrefix(rpath, patterns)
  {
    TakeWhileStops(patterns, x => x != "" && EndsWith(rpath, x));
    TakeWhileStops(patterns, x => x != "" && StartsWith(rpath, x));
  }

  /** os.path.join(a, b) for two components. */
  function PathJoin(a: string, b: string): string
  {
    if StartsWith(b, "/") then b
    else if a == "" || EndsWith(a, "/") then a + b
    else a + "/" + b
  }

  /** A file os.walk reports under rootdir/subdir, by its normalised relative path. */
  datatype WalkEntry = WalkEntry(rpath: string, isDir: bool)

  predicate Listed(e: WalkEntry, suffixes: seq<string>, prefixes: seq<string>)
  {
    !e.isDir && !HasSuffix(e.rpath, suffixes) && !HasPrefix(e.rpath, prefixes)
  }

  /** list_rpaths: the files of the walk that no suffix nor prefix excludes, under subdir. */
  function ListRpaths(walk: seq<WalkEntry>, subdir: string, suffixes: seq<string>, prefixes: seq<string>): (r: seq<string>)
    ensures |r| <= |walk|
  {
    MapSeq(Filter(walk, (e: WalkEntry) => Listed(e, suffixes, prefixes)), (e: WalkEntry) => PathJoin(subdir, e.rpath))
  }

  /** A file that none of the non-empty suffixes and prefixes matches. */
  predicate Unexcluded(e: WalkEntry, suffixes: seq<string>, prefixes: seq<string>)
  {
    !e.isDir
    && (forall x :: x in suffixes && x != "" ==> !EndsWith(e.rpath, x))
    && (forall x :: x in prefixes && x != "" ==> !StartsWith(e.rpath, x))
  }

  /** The takewhile tests of list_rpaths keep exactly the files no pattern excludes. */
  lemma ListedIsUnexcluded(e: WalkEntry, suffixes: seq<string>, prefixes: seq<string>)
    ensures Listed(e, suffixes, prefixes) <==> Unexcluded(e, suffixes, prefixes)
  {
    TakeWhileStops(suffixes, x => x != "" && EndsWith(e.rpath, x));
    TakeWhileStops(prefixes, x => x != "" && StartsWith(e.rpath, x));
  }

  /**
   * A path is listed exactly when the walk has a file for it that matches
   * none of the non-empty suffixes and prefixes.
   */
  lemma ListRpathsMember(walk: seq<WalkEntry>, subdir: string, suffixes: seq<string>, prefixes: seq<string>, p: string)
    ensures p in ListRpaths(walk, subdir, suffixes, prefixes) <==>
      exists e :: e in walk && Unexcluded(e, suffixes, prefixes) && p == PathJoin(subdir, e.rpath)
  {
    if p in ListRpaths(walk, subdir, suffixes, prefixes) {
      ListedFrom(walk, subdir, suffixes, prefixes, p);
    }
    if exists e :: e in walk && Unexcluded(e, suffixes, prefixes) && p == PathJoin(subdir, e.rpath) {
      var e :| e in walk && Unexcluded(e, suffixes, prefixes) && p == PathJoin(subdir, e.rpath);
      UnexcludedListed(walk, subdir, suffixes, prefixes, e);
    }
  }

  lemma ListedFrom(walk: seq<WalkEntry>, subdir: string, suffixes: seq<string>, prefixes: seq<string>, p: string)
    requires p in ListRpaths(walk, subdir, suffixes, prefixes)
    ensures exists e :: e in walk && Unexcluded(e, suffixes, prefixes) && p == PathJoin(subdir, e.rpath)
  {
    var kept := Filter(walk, (e: WalkEntry) => Listed(e, suffixes, prefixes));
    var i :| 0 <= i < |kept| && p == ListRpaths(walk, subdir, suffixes, prefixes)[i];
    var e := kept[i];
    assert p == PathJoin(subdir, e.rpath);
    FilterMembers(walk, (e: WalkEntry) => Listed(e, suffixes, prefixes));
    assert e in kept;
    ListedIsUnexcluded(e, suffixes, prefixes);
  }

  lemma UnexcludedListed(walk: seq<WalkEntry>, subdir: string, suffixes: seq<string>, prefixes: seq<string>, e: WalkEntry)
    requires e in walk && Unexcluded(e, suffixes, prefixes)
    ensures PathJoin(subdir, e.rpath) in ListRpaths(walk, subdir, suffixes, prefixes)
  {
    var kept := Filter(walk, (e: WalkEntry) => Listed(e, suffixes, prefixes));
    ListedIsUnexcluded(e, suffixes, prefixes);
    FilterMembers(walk, (e: WalkEntry) => Listed(e, suffixes, prefixes));
    assert e in kept;
    var i :| 0 <= i < |kept| && kept[i] == e;
    assert ListRpaths(walk, subdir, suffixes, prefixes)[i] == PathJoin(subdir, e.rpath);
  }

  // ---------------------------------------------------------------------
  // Comma separated option values
  // ---------------------------------------------------------------------

  /** --exclude-pkgs: `list(y.strip() for y in x.split(','))`. */
  function OptionList(s: string): (r: seq<string>)
    ensures r != []
  {
    MapSeq(Split(s, ','), Strip)
  }

  /** --exclude-files: the same list, each name joined under 'etc'. */
  function ExcludeFilesOption(s: string): (r: seq<string>)
    ensures |r| == |OptionList(s)|
  {
    MapSeq(OptionList(s), y => PathJoin("etc", y))
  }

  // ---------------------------------------------------------------------
  // Reports
  // ---------------------------------------------------------------------

  /** str_file_list: None for no file, else the header and the sorted files indented by two. */
  function StrFileList(header: string, files: seq<string>): (r: Option<string>)
    ensures r.None? <==> files == []
  {
    if files == [] then None
    else Some(Join("\n", [header] + MapSeq(Sort(files), f => "  " + f)))
  }

  /**
   * A non-empty report is its header followed by the files in ascending
   * order, each occurrence once: any ordering of the same files gives it.
   */
  lemma StrFileListIsSortedListing(header: string, files: seq<string>, ordered: seq<string>)
    requires files != [] && Sorted(ordered) && multiset(ordered) == multiset(files)
    ensures StrFileList(header, files) == Some(Join("\n", [header] + MapSeq(ordered, f => "  " + f)))
  {
    SortSorted(files);
    SortedUnique(Sort(files), ordered);
  }

  /** A listing starts with its header, followed by a line per file. */
  lemma StrFileListStartsWithHeader(header: string, files: seq<string>)
    requires files != []
    ensures StartsWith(StrFileList(header, files).value, header)
    ensures |StrFileList(header, files).value| > |header|
  {
    var lines := [header] + MapSeq(Sort(files), f => "  " + f);
    assert |lines| > 1 && lines[0] == header;
    assert Join("\n", lines) == header + "\n" + Join("\n", lines[1..]);
  }

  /** UpdateResults.add_list: append a block, separated by a newline from a previous one. */
  function AddList(result: string, block: Option<string>): string
  {
    match block
    case None => result
    case Some(lines) => (if result != "" then result + "\n" else result) + lines
  }

  function AddAll(result: string, blocks: seq<Option<string>>): string
    decreases |blocks|
  {
    if blocks == [] then result else AddAll(AddList(result, blocks[0]), blocks[1..])
  }

  function Present(blocks: seq<Option<string>>): (r: seq<string>)
    ensures |r| <= |blocks|
  {
    if blocks == [] then []
    else (if blocks[0].Some? then [blocks[0].value] else []) + Present(blocks[1..])
  }

  /**
   * Chaining add_list over the report's blocks gives the present blocks
   * joined by newlines: an absent list leaves no empty line.
   */
  lemma {:induction false} AddAllJoins(blocks: seq<Option<string>>)
    requires forall i :: 0 <= i < |blocks| && blocks[i].Some? ==> blocks[i].value != ""
    ensures AddAll("", blocks) == Join("\n", Present(blocks))
  {
    AddAllFrom("", blocks);
  }

  /** No block is present exactly when every list is absent. */
  lemma {:induction false} PresentEmpty(blocks: seq<Option<string>>)
    ensures Present(blocks) == [] <==> forall i :: 0 <= i < |blocks| ==> blocks[i].None?
    decreases |blocks|
  {
    if blocks != [] {
      PresentEmpty(blocks[1..]);
      if blocks[0].None? {
        assert forall i :: 1 <= i < |blocks| ==> blocks[i] == blocks[1..][i - 1];
      }
    }
  }

  /** The blocks joined are empty exactly when no block is present. */
  lemma JoinPresentEmpty(blocks: seq<Option<string>>)
    requires forall i :: 0 <= i < |blocks| && blocks[i].Some? ==> blocks[i].value != ""
    ensures Join("\n", Present(blocks)) == "" <==> forall i :: 0 <= i < |blocks| ==> blocks[i].None?
  {
    PresentEmpty(blocks);
    var xs := Present(blocks);
    if xs != [] {
      PresentHead(blocks);
      assert |Join("\n", xs)| >= |xs[0]|;
    }
  }

  /** The first present block is one of the blocks. */
  lemma {:induction false} PresentHead(blocks: seq<Option<string>>)
    requires Present(blocks) != []
    ensures exists i :: 0 <= i < |blocks| && blocks[i] == Some(Present(blocks)[0])
    decreases |blocks|
  {
    if blocks[0].None? {
      PresentHead(blocks[1..]);
      var i :| 0 <= i < |blocks[1..]| && blocks[1..][i] == Some(Present(blocks[1..])[0]);
      assert blocks[i + 1] == blocks[1..][i];
    }
  }

  /** The listings of a report: each list under its header, None for an empty list. */
  function Listings(header: nat -> string, lists: seq<seq<string>>): (b: seq<Option<string>>)
    ensures |b| == |lists|
    ensures forall i :: 0 <= i < |lists| ==> b[i] == StrFileList(header(i), lists[i])
  {
    seq(|lists|, i requires 0 <= i < |lists| => StrFileList(header(i), lists[i]))
  }

  /**
   * A report made of listings is the listings of the non-empty lists
   * joined by newlines, and it is empty exactly when every list is.
   */
  lemma ReportOfListings(header: nat -> string, lists: seq<seq<string>>)
    ensures AddAll("", Listings(header, lists)) == Join("\n", Present(Listings(header, lists)))
    ensures AddAll("", Listings(header, lists)) == "" <==> forall i :: 0 <= i < |lists| ==> lists[i] == []
  {
    var b := Listings(header, lists);
    forall i | 0 <= i < |b| && b[i].Some?
      ensures b[i].value != ""
    {
      StrFileListStartsWithHeader(header(i), lists[i]);
    }
    AddAllJoins(b);
    JoinPresentEmpty(b);
  }

  lemma {:induction false} AddAllFrom(result: string, blocks: seq<Option<string>>)
    requires forall i :: 0 <= i < |blocks| && blocks[i].Some? ==> blocks[i].value != ""
    ensures AddAll(result, blocks) ==
      (if result == "" then Join("\n", Present(blocks))
       else if Present(blocks) == [] then result
       else result + "\n" + Join("\n", Present(blocks)))
    decreases |blocks|
  {
    if blocks != [] {
      var next := AddList(result, blocks[0]);
      AddAllFrom(next, blocks[1..]);
      var rest := Present(blocks[1..]);
      if blocks[0].Some? {
        var b := blocks[0].value;
        assert Present(blocks) == [b] + rest;
        assert next == (if result != "" then result + "\n" + b else b);
        if rest != [] {
          assert Join("\n", Present(blocks)) == b + "\n" + Join("\n", rest);
          if result != "" {
            assert next + "\n" + Join("\n", rest) == result + "\n" + (b + "\n" + Join("\n", rest));
          }
        }
      } else {
        assert Present(blocks) == rest;
      }
    }
  }

  // ---------------------------------------------------------------------
  // Conflicts reported by `git status --porcelain`
  // ---------------------------------------------------------------------

  /** Python's s[:n] */
  function Take(s: string, n: nat): string
  {
    if |s| <= n then s else s[..n]
  }

  /** Python's s[n:] */
  function Drop(s: string, n: nat): string
  {
    if |s| <= n then "" else s[n..]
  }

  predicate Unmerged(statusLine: string)
  {
    'U' in Take(statusLine, 2)
  }

  /** `[x[3:] for x in status if 'U' in x[:2]]` */
  function ConflictPaths(status: seq<string>): (r: seq<string>)
    ensures |r| <= |status|
  {
    MapSeq(Filter(status, Unmerged), x => Drop(x, 3))
  }

  /** One entry of `git status --porcelain`: the two status letters and the path. */
  datatype StatusEntry = StatusEntry(x: char, y: char, path: string)

  function StatusLine(e: StatusEntry): string
  {
    [e.x, e.y, ' '] + e.path
  }

  function UnmergedPaths(entries: seq<StatusEntry>): (r: seq<string>)
  {
    if entries == [] then []
    else
      var e := entries[|entries| - 1];
      UnmergedPaths(entries[..|entries| - 1]) + (if e.x == 'U' || e.y == 'U' then [e.path] else [])
  }

  /**
   * Parsing the status lines recovers the paths of exactly the entries
   * with an unmerged ('U') status letter, in order.
   */
  lemma {:induction false} ConflictPathsOfStatus(entries: seq<StatusEntry>)
    ensures ConflictPaths(MapSeq(entries, StatusLine)) == UnmergedPaths(entries)
    decreases |entries|
  {
    if entries != [] {
      var init := entries[..|entries| - 1];
      var e := entries[|entries| - 1];
      var line := StatusLine(e);
      ConflictPathsOfStatus(init);
      assert entries == init + [e];
      MapSeqAppend(init, [e], StatusLine);
      var fs := Filter(MapSeq(init, StatusLine), Unmerged);
      var last := if Unmerged(line) then [line] else [];
      FilterSnoc(MapSeq(init, StatusLine), line, Unmerged);
      MapSeqAppend(fs, last, x => Drop(x, 3));
      assert Take(line, 2) == [e.x, e.y];
      assert Drop(line, 3) == e.path;
    }
  }

  // ---------------------------------------------------------------------
  // The sync command's search of the cherry-pick commit
  // ---------------------------------------------------------------------

  predicate IsHex(c: char)
  {
    '0' <= c <= '9' || 'a' <= c <= 'f' || 'A' <= c <= 'F'
  }

  /** `^commit (?P<commit>[0-9A-Fa-f]{40})$` */
  predicate IsCommitHeader(line: string)
  {
    |line| == 47 && line[..7] == "commit " && forall i :: 7 <= i < 47 ==> IsHex(line[i])
  }

  /** `^\(cherry picked from commit [0-9A-Fa-f]{40}\)$` */
  predicate IsPickTrailer(line: string)
  {
    |line| == 68 && line[..27] == "(cherry picked from commit " && line[67] == ')'
    && forall i :: 27 <= i < 67 ==> IsHex(line[i])
  }

  /** The commit id a header names. */
  function CommitId(line: string): string
    requires IsCommitHeader(line)
  {
    line[7..]
  }

  /**
   * The loop of cmd_sync from line k on, `commit` being the last header
   * seen: at the first trailer it yields that commit, None if none was seen.
   */
  function PickedFrom(lines: seq<string>, k: nat, commit: Option<string>): Option<string>
    requires k <= |lines|
    decreases |lines| - k
  {
    if k == |lines| then None
    else if IsCommitHeader(lines[k]) then PickedFrom(lines, k + 1, Some(CommitId(lines[k])))
    else if IsPickTrailer(lines[k]) then commit
    else PickedFrom(lines, k + 1, commit)
  }

  /** The index of the first trailer at or after k. */
  function FirstTrailer(lines: seq<string>, k: nat): (j: Option<nat>)
    requires k <= |lines|
    ensures j.Some? ==>
              k <= j.value < |lines| && IsPickTrailer(lines[j.value])
              && forall m :: k <= m < j.value ==> !IsPickTrailer(lines[m])
    ensures j.None? ==> forall m :: k <= m < |lines| ==> !IsPickTrailer(lines[m])
    decreases |lines| - k
  {
    if k == |lines| then None
    else if IsPickTrailer(lines[k]) then Some(k)
    else FirstTrailer(lines, k + 1)
  }

  /** The index of the last header in [lo, hi). */
  function LastHeader(lines: seq<string>, lo: nat, hi: nat): (i: Option<nat>)
    requires lo <= hi <= |lines|
    ensures i.Some? ==>
              lo <= i.value < hi && IsCommitHeader(lines[i.value])
              && forall m :: i.value < m < hi ==> !IsCommitHeader(lines[m])
    ensures i.None? ==> forall m :: lo <= m < hi ==> !IsCommitHeader(lines[m])
    decreases hi - lo
  {
    if hi == lo then None
    else if IsCommitHeader(lines[hi - 1]) then Some(hi - 1)
    else LastHeader(lines, lo, hi - 1)
  }

  /** The commit named by the last header before the first trailer. */
  function PickedReference(lines: seq<string>, k: nat, commit: Option<string>): Option<string>
    requires k <= |lines|
  {
    match FirstTrailer(lines, k)
    case None => None
    case Some(j) =>
      match LastHeader(lines, k, j)
      case None => commit
      case Some(i) => Some(CommitId(lines[i]))
  }

  lemma {:induction false} LastHeaderStep(lines: seq<string>, lo: nat, hi: nat)
    requires lo < hi <= |lines|
    ensures LastHeader(lines, lo, hi) ==
      (if LastHeader(lines, lo + 1, hi).Some? then LastHeader(lines, lo + 1, hi)
       else if IsCommitHeader(lines[lo]) then Some(lo) else None)
    decreases hi - lo
  {
    if hi - 1 > lo && !IsCommitHeader(lines[hi - 1]) {
      LastHeaderStep(lines, lo, hi - 1);
    }
  }

  /** The loop of cmd_sync finds the last header before the first trailer. */
  lemma {:induction false} PickedFromIsReference(lines: seq<string>, k: nat, commit: Option<string>)
    requires k <= |lines|
    ensures PickedFrom(lines, k, commit) == PickedReference(lines, k, commit)
    decreases |lines| - k
  {
    if k < |lines| {
      var next := if IsCommitHeader(lines[k]) then Some(CommitId(lines[k])) else commit;
      if !IsPickTrailer(lines[k]) {
        PickedFromIsReference(lines, k + 1, next);
        assert FirstTrailer(lines, k) == FirstTrailer(lines, k + 1);
        match FirstTrailer(lines, k)
        case None =>
        case Some(j) =>
          LastHeaderStep(lines, k, j);
      } else {
        assert !IsCommitHeader(lines[k]) by { assert lines[k][0] == '(' && "commit "[0] == 'c'; }
      }
    }
  }

  /**
   * cmd_sync: the commit of master-tmp whose message carries the `-x`
   * trailer of the cherry-pick, read from the output of
   * `git rev-list --format=%b master...master-tmp`.
   */
  method FindCherryPick(revList: string) returns (r: Result<string>)
    ensures r.Ok? <==> PickedReference(SplitLines(revList), 0, None).Some?
    ensures r.Ok? ==> r.value == PickedReference(SplitLines(revList), 0, None).value
    ensures r.Err? ==> r.failure == EmtError("cannot find a cherry-pick in master-tmp branch")
  {
    var lines := SplitLines(revList);
    var commit: Option<string> := None;
    var picked: Option<string> := None;
    var k := 0;
    while k < |lines|
      invariant 0 <= k <= |lines|
      invariant PickedFrom(lines, 0, None) == PickedFrom(lines, k, commit)
      decreases |lines| - k
    {
      if IsCommitHeader(lines[k]) {
        commit := Some(CommitId(lines[k]));
        k := k + 1;
        continue;
      }
      if IsPickTrailer(lines[k]) {
        picked := commit;
        break;
      }
      k := k + 1;
    }
    PickedFromIsReference(lines, 0, None);
    if picked.None? {
      return Err(EmtError("cannot find a cherry-pick in master-tmp branch"));
    }
    r := Ok(picked.value);
  }

  // ---------------------------------------------------------------------
  // GitRepo.init
  // ---------------------------------------------------------------------

  const FirstCommitMsg := "First etcmaint commit"

  /**
   * The checks of GitRepo.init, given the output of `git rev-list
   * --max-parents=0 --format=%s master` (None when git fails), the status
   * lines and whether .git/CHERRY_PICK_HEAD exists.
   */
  function InitCheck(repodir: string, revList: Option<string>, status: seq<string>, cherryPickHead: bool): (r: Option<Failure>)
    ensures r.None? <==>
      revList.Some? && |SplitLines(revList.value)| == 2 && SplitLines(revList.value)[1] == FirstCommitMsg
      && status == [] && !cherryPickHead
    ensures revList.Some? && |SplitLines(revList.value)| != 2 ==> r == Some(PyError("ValueError"))
  {
    if revList.None? then Some(EmtError("no git repository at " + repodir))
    else
      var lines := SplitLines(revList.value);
      if |lines| != 2 then Some(PyError("ValueError"))
      else if lines[1] != FirstCommitMsg then
        Some(EmtError("this is not an etcmaint repository\nfound as the first commit message:\n'"
          + lines[1] + "'\ninstead of the expected '" + FirstCommitMsg + "' message"))
      else if status != [] then
        Some(EmtError("the " + repodir + " repository is not clean:\n" + Join("\n", status)))
      else if cherryPickHead then
        Some(EmtError("The previous cherry-pick is empty, please use 'git reset'"))
      else None
  }
}
