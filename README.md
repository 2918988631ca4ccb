# etcmaint: the reconciliation engine, in Dafny

etcmaint keeps an Arch Linux system's `/etc` under version control in a git
repository with three long-lived branches:

- `etc` holds the files as the packages ship them;
- `master` holds the files as the user runs them;
- `timestamps` (in the current version) records, per package, the mtime of
  the last archive scanned.

An `update` builds temporary branches `etc-tmp`, `master-tmp` and
`timestamps-tmp`, then commits to them:

- the files of the packages installed or upgraded since the last scan;
- the removal of files that are gone from `/etc`;
- the user's own changes.

When an upgraded package file meets a file the user changed, the
package's version is committed to `etc-tmp` in a commit of its own. That
commit is cherry-picked onto `master-tmp`, and `sync` later copies the
result back to `/etc`. Otherwise the branches are fast-forwarded to their
temporary branches.

This project models that engine in three versions:

- `etcmaint/etcmaint.py`, the current one;
- `etcmaint.py`, version 0.1;
- `etcmerger.py`, the first.

It is made of these modules:

- `Common`, `PyText`, `PyStrip` (common.dfy, pytext.dfy, pystrip.dfy): the
  Python built-ins the tools lean on, such as list comprehensions,
  `sorted`, `splitlines`, `rsplit`, `split`, `strip`, `int` and `str`,
  each with the laws the engine needs.
- `EtcMaintPath` (digests.dfy): `EtcPath`, the fingerprint of a file
  under `/etc` or the repository. It is a class whose digest is computed
  once and then kept.
- `GitStore` (gitstore.dfy): a git repository as a class. It holds a list
  of commits, each a tree (a map from path to content), plus branch heads,
  tags and the checked-out branch, with the git commands the tools run.
- `EtcMaintText`, `EtcMaintPackages`, `EtcMaintUpdate`, `EtcMaintCommands`:
  the current version. These modules hold:
  - file listing and option parsing;
  - the report;
  - the parsing of `git status` and `git rev-list`;
  - the choice of new package archives and their extraction;
  - the classification of the extracted files;
  - the removal cascade;
  - the user changes;
  - the `EtcMaint` class with `update` and `sync`.
- `EtcLegacy`, `LegacyEngine`, `EtcMaintV01`: version 0.1. These modules
  hold:
  - the `Timestamp` file and its `TIMESTAMP=` line;
  - the archive choice by file name;
  - the classification and removals shared with `etcmerger.py`;
  - the `EtcMerger` class of `etcmaint.py`.
- `EtcMergerScript` (etcmerger.dfy): `etcmerger.py`. It covers `run_cmd`,
  `git_cmd`, `GitRepo.init`, the report and its `EtcMerger` class.

The file system, the package archives and git's three-way merge are
inputs. A directory walk is a sequence of entries. `/etc` is a map from
path to digest. An archive is a file name, an mtime and a list of
members. The outcome of a cherry-pick is either the tree git computed or
the status lines of a stop on conflicts. Failures of the Python code are
modelled as values:

- `PyError("ValueError")` and the like for exceptions;
- `EmtError`/`Abort` for the tools' own aborts;
- `GitError` for a git command that fails.

The central property is the agreement that `update` keeps between `/etc`
and the branches. Every readable `/etc` file that `etc-tmp` tracks ends
up in one of two states:

- the same as its `etc-tmp` copy;
- tracked in `master-tmp`, which then holds the `/etc` version.

Only the files that wait for the cherry-pick are exempt. The lemmas of
`EtcMaintUpdate` show that:

- each step keeps this agreement (`UpgradeKeepsAgreement`,
  `RemovalKeepsAgreement`);
- `git_user_updates` restores it with nothing pending
  (`UserUpdatesRestoreAgreement`);
- `EtcMaint.CommitToTmpBranches` carries it to the branches.

Where the source as written is wrong (see "## Findings"), the model
states the as-written behaviour in a member of its own, proves the
discrepancy, and runs the corrected behaviour in the rest of the model;
"## Left out" names each member that does so.

## Model

| member | source | states |
|---|---|---|
| Common.FilterMembers | etcmaint/etcmaint.py:662-695 | a list comprehension with an `if` keeps exactly the elements that pass the test |
| Common.MapSeq | etcmaint/etcmaint.py:102-106 | a comprehension without a test has one element per input element, each the function of it |
| Common.Restrict | etcmaint/etcmaint.py:271-279 | committing the listed files from the working tree takes exactly those of its paths, with their content |
| Common.Without | etcmaint/etcmaint.py:281-283 | `git rm` drops exactly the listed paths and keeps every other path with its content |
| PyText.Sort | etcmaint/etcmaint.py:102-106 | `sorted()` returns a permutation of the list |
| PyText.SortSorted | etcmaint/etcmaint.py:102-106 | `sorted()` returns the list's elements in ascending code-point order |
| PyText.SortedUnique | etcmaint/etcmaint.py:102-106 | two ascending lists with the same elements are equal, so the listing does not depend on the input order |
| PyText.SplitLinesJoin | etcmaint/etcmaint.py:258-260 | lines joined with newlines split back into the same lines |
| PyText.SplitLines | etcmaint/etcmaint.py:258-260 | `splitlines()` returns lines free of line boundaries |
| PyText.ReadLines | etcmaint.py:288-301 | iterating over a text file yields non-empty lines that join back into the file |
| PyText.RSplit | etcmaint/etcmaint.py:809 | `rsplit('-', 3)` returns at most four pieces, and none but the first holds a dash |
| PyText.RSplitJoin | etcmaint/etcmaint.py:809 | the pieces of `rsplit` join back into the file name |
| PyText.RSplitFull | etcmaint/etcmaint.py:809-812 | `rsplit` returns all four fields exactly when the name has at least three dashes |
| PyText.SplitJoin | etcmaint/etcmaint.py:1019-1036 | `split(',')` returns pieces free of commas that join back into the option's text |
| PyText.StripIntStr | etcmaint/etcmaint.py:1021 | `strip()` gives back `str(n)`, with or without a trailing newline |
| PyText.ParseIntStr | etcmaint.py:304-309 | `int(str(n)) == n`, also when the newline of the line is still there |
| PyStrip.StripChar | etcmerger.py:161-169 | `strip('\n')` leaves no newline at either end |
| PyStrip.StripCharTrailing | etcmerger.py:161-169 | a text that neither starts nor ends with a newline, followed by one newline, strips back to itself |
| PyStrip.SplitOfJoin | etcmerger.py:141-159 | `split('\n')` of lines joined by newlines gives the lines back |
| EtcMaintPath.RelativeTo | etcmaint/etcmaint.py:141-172 | `relative_to` succeeds exactly when the base is a prefix, and the base followed by the result is the path |
| EtcMaintPath.DigestOf | etcmaint/etcmaint.py:141-172 | the digest is unreadable exactly when `stat` or the read fails; a file's digest is its sha1; a link's digest is its resolved target, relative to the tree's base directory, else to the root directory, else absolute |
| EtcMaintPath.LinkDigestIsTreeRelative | etcmaint/etcmaint.py:141-172 | a link in `/etc` and its copy in the repository get the same digest when they resolve to the same place relative to their own trees |
| EtcMaintPath.SamePartialEquivalence | etcmaint/etcmaint.py:174-176 | `==` on paths is symmetric and transitive, reflexive exactly on readable digests, and an unreadable file equals nothing |
| EtcMaintPath.EtcPath.constructor | etcmaint/etcmaint.py:132-138 | a new path holds its directories and name, with no digest computed yet |
| EtcMaintPath.EtcPath.Digest | etcmaint/etcmaint.py:141-172 | the digest is computed from the file system on first use only, and keeps that value afterwards |
| EtcMaintPath.EtcPath.Equals | etcmaint/etcmaint.py:174-176 | comparing two paths computes the missing digests and answers whether they are the same readable content |
| GitStore.GitRepo.Create | etcmaint/etcmaint.py:199-205 | a new repository has one commit, on master, holding the given files |
| GitStore.GitRepo.Checkout | etcmaint/etcmaint.py:262-269 | `checkout -b` starts the branch at the current head; a plain checkout moves no branch; HEAD is then on the branch |
| GitStore.GitRepo.Commit | etcmaint/etcmaint.py:271-279 | one new commit, the current tree with the changes applied, becomes the head of the current branch; nothing else moves |
| GitStore.GitRepo.Remove | etcmaint/etcmaint.py:281-283 | one new commit, the current tree without the files, becomes the head of the current branch |
| GitStore.GitRepo.CommitTree | etcmaint/etcmaint.py:295-297 | a cherry-pick that applies adds one commit holding git's tree to the current branch |
| GitStore.GitRepo.DeleteBranch | etcmaint/etcmaint.py:565-584 | `branch -D` removes that branch head only |
| GitStore.GitRepo.Merge | etcmaint/etcmaint.py:586-587 | the fast-forward merge moves the current branch to the other branch's head; nothing else changes |
| GitStore.GitRepo.LsTree | etcmaint/etcmaint.py:299-313 | `ls-tree` lists each path of the branch's tree once |
| GitStore.GitRepo.Tag | etcmaint/etcmaint.py:565-584 | `tag -f` points the tag at the branch's head and changes nothing else |
| EtcMaintText.TakeWhileStops | etcmaint/etcmaint.py:41-71 | the `takewhile` test stops early exactly when some pattern matches |
| EtcMaintText.EmptyPatternsExcludeNothing | etcmaint/etcmaint.py:1019-1036 | the empty pattern of a default option value excludes no file |
| EtcMaintText.ListedIsUnexcluded | etcmaint/etcmaint.py:41-71 | the two `takewhile` tests keep exactly the files that no non-empty suffix ends and no non-empty prefix starts |
| EtcMaintText.ListRpathsMember | etcmaint/etcmaint.py:41-71 | a path is listed exactly when the walk holds an unexcluded file for it, joined under the subdirectory |
| EtcMaintText.OptionList | etcmaint/etcmaint.py:1019-1036 | `--exclude-pkgs` is never an empty list: even an empty option gives one (empty) name, which `EmptyPatternsExcludeNothing` shows to exclude nothing |
| EtcMaintText.ExcludeFilesOption | etcmaint/etcmaint.py:1026-1029 | `--exclude-files` has as many names as `--exclude-pkgs` would for the same text |
| EtcMaintText.StrFileList | etcmaint/etcmaint.py:102-106 | there is no listing exactly when there is no file |
| EtcMaintText.StrFileListIsSortedListing | etcmaint/etcmaint.py:102-106 | a listing is its header, then each file indented by two in ascending order; any ordering of the same files gives it |
| EtcMaintText.StrFileListStartsWithHeader | etcmaint/etcmaint.py:102-106 | a listing starts with its header and goes on past it |
| EtcMaintText.AddAllJoins | etcmaint/etcmaint.py:332-338 | chaining `add_list` joins the present listings with single newlines and leaves no empty line for an absent one |
| EtcMaintText.PresentEmpty | etcmaint/etcmaint.py:332-338 | no listing is present exactly when every list is absent |
| EtcMaintText.JoinPresentEmpty | etcmaint/etcmaint.py:340-363 | the joined listings are empty exactly when no listing is present |
| EtcMaintText.Listings | etcmaint/etcmaint.py:340-363 | the report has one listing per list, under that list's header |
| EtcMaintText.ReportOfListings | etcmaint/etcmaint.py:340-363 | the report is the non-empty lists' listings joined by newlines, and it is empty exactly when every list is |
| EtcMaintText.ConflictPathsOfStatus | etcmaint/etcmaint.py:626-627 | parsing the status lines recovers, in order, the paths of exactly the entries with a `U` status letter |
| EtcMaintText.FirstTrailer | etcmaint/etcmaint.py:504-518 | returns the first cherry-pick trailer line at or after the position, or proves there is none |
| EtcMaintText.LastHeader | etcmaint/etcmaint.py:504-518 | returns the last `commit` header line in the range, or proves there is none |
| EtcMaintText.PickedFromIsReference | etcmaint/etcmaint.py:508-518 | the scan of the rev-list output finds the last commit header before the first trailer |
| EtcMaintText.FindCherryPick | etcmaint/etcmaint.py:503-520 | `sync` finds the cherry-pick commit exactly when a trailer follows a header, and fails with "cannot find a cherry-pick in master-tmp branch" otherwise |
| EtcMaintText.InitCheck | etcmaint/etcmaint.py:207-238 | the repository is accepted exactly when rev-list prints two lines whose second is the first commit message, the status is clean and no cherry-pick is in progress; any other number of lines raises ValueError |
| EtcMaintPackages.PackageName | etcmaint/etcmaint.py:805-812 | the name is what precedes three dash-separated fields, and it exists exactly when the file name has three dashes |
| EtcMaintPackages.PackageNamePrefix | etcmaint/etcmaint.py:809-812 | the package name is followed, after a dash, by the other fields of the file name |
| EtcMaintPackages.CandidateName | etcmaint/etcmaint.py:775-829 | an archive can be chosen only if it is a file ending in `.pkg.tar.xz` with a well-formed name, newer than its package's cursor, and not matched by an excluded prefix |
| EtcMaintPackages.SelectionInRange | etcmaint/etcmaint.py:775-829 | every chosen index is an index of the directory entries |
| EtcMaintPackages.SelectionSkip | etcmaint/etcmaint.py:812-826 | an entry that is no candidate, or no newer than the archive already chosen for its name, leaves the choice unchanged |
| EtcMaintPackages.SelectionTake | etcmaint/etcmaint.py:826-829 | a newer candidate replaces the archive chosen for its name |
| EtcMaintPackages.ChosenLatest | etcmaint/etcmaint.py:775-829 | each package keeps its latest archive, the first of those with equal mtimes |
| EtcMaintPackages.Consider | etcmaint/etcmaint.py:812-829 | one directory entry fails exactly when its package's timestamps file is read and holds no number; otherwise it is taken exactly when it is a candidate newer than the current choice; the excluded names only grow with prefix-matched names |
| EtcMaintPackages.NewPackages | etcmaint/etcmaint.py:775-844 | fails exactly when an archive entry's package has a timestamps file that holds no number, a file being read only for a name met among the entries; otherwise the chosen archives are the latest candidates per name, the timestamps record exactly their mtimes, each newer than the old cursor, and the names come in the order of their first candidate entry, the dictionary's insertion order |
| EtcMaintPackages.ScanEntry | etcmaint/etcmaint.py:802-829 | one pass of the loop fails exactly as `newer_exists_in` does on that entry, and otherwise extends the choice, the timestamps and the name order by that entry |
| EtcMaintPackages.ScanAll | etcmaint/etcmaint.py:800-834 | the loop over the entries fails exactly when the cursor read for some entry fails, and otherwise has scanned every entry |
| EtcMaintPackages.NewPackagesScanned | etcmaint/etcmaint.py:805-844 | the scan of every entry gives the latest archives, their mtimes as new cursors, and the names in first-candidate order |
| EtcMaintPackages.FirstSeenMembers | etcmaint/etcmaint.py:801-829 | the keys of new_pkgs, in insertion order, are distinct and are exactly the candidate names |
| EtcMaintPackages.FirstSeenOrder | etcmaint/etcmaint.py:801-829 | a name whose first candidate entry comes earlier comes earlier among the keys of new_pkgs |
| EtcMaintPackages.CursorFailsOnlyOnScannedNames | etcmaint/etcmaint.py:777-816 | the timestamps file of a package that no entry names is never read: changing it changes neither failure nor success |
| EtcMaintPackages.KeptMembers | etcmaint/etcmaint.py:847-853 | the extracted members are exactly those under `etc`, of a supported kind and not excluded |
| EtcMaintPackages.OwnerReadWrite | etcmaint/etcmaint.py:879-886 | the chmod sets the owner's read and write bits, keeps the other bits, and leaves a mode that has them unchanged |
| EtcMaintPackages.OverlayEffect | etcmaint/etcmaint.py:864 | extraction adds the members' paths to the working tree and leaves every other file alone |
| EtcMaintPackages.RememberEffect | etcmaint/etcmaint.py:858-863 | each member's path is remembered with the digest it had before extraction; other entries and the tree are untouched |
| EtcMaintPackages.ExtractFromEffect | etcmaint/etcmaint.py:855-865 | extracting one package adds exactly its kept names to the dictionary and to the tree, remembering their old digests |
| EtcMaintPackages.ExtractAllEffect | etcmaint/etcmaint.py:846-887 | the scan extracts the kept members of all packages and nothing else, lists each name once in order, and leaves other files alone |
| EtcMaintPackages.FixModes | etcmaint/etcmaint.py:879-886 | every extracted file that etc-tmp does not track becomes owner read-write; tracked files keep their mode |
| EtcMaintPackages.PrevIsBeforeScan | etcmaint/etcmaint.py:855-865 | when no two packages share a file, the remembered digest is the one the file had in etc-tmp before the scan |
| EtcMaintPackages.ExtractPackage | etcmaint/etcmaint.py:855-865 | the method extracting one package computes `extract_from`'s effect |
| EtcMaintPackages.MakeWritable | etcmaint/etcmaint.py:879-886 | the chmod loop computes the mode fix above |
| EtcMaintPackages.Scan | etcmaint/etcmaint.py:846-887 | `scan` returns the extraction of all packages and the fixed modes |
| EtcMaintPackages.TimestampFiles | etcmaint/etcmaint.py:836-840 | there is one timestamps file per chosen package |
| EtcMaintPackages.CursorAfterCommit | etcmaint/etcmaint.py:836-840 | committing the timestamps moves each committed package's cursor to its recorded mtime and leaves the others alone |
| EtcMaintPackages.TimestampReadsBack | etcmaint/etcmaint.py:786 | a timestamps file parses back to the mtime it was written from |
| EtcMaintUpdate.TrackedFilesOfTree | etcmaint/etcmaint.py:299-313 | `tracked_files` lists the branch's files under `etc`, each once |
| EtcMaintUpdate.ClassifyStep | etcmaint/etcmaint.py:923-948 | each list grows by the next extracted file exactly when its verdict names that list |
| EtcMaintUpdate.ClassificationMembers | etcmaint/etcmaint.py:922-948 | the three lists, in terms of the digests: unreadable in `/etc` means no list; a new file goes to pkg_add_etc, and to pkg_add_master when `/etc` differs; an upgraded file whose package digest changed goes to pkg_add_etc when `/etc` has it, otherwise to cherry_pick |
| EtcMaintUpdate.ClassificationDisjoint | etcmaint/etcmaint.py:922-948 | pkg_add_master is a subset of the new files of pkg_add_etc; cherry_pick is disjoint from pkg_add_etc and holds only tracked files |
| EtcMaintUpdate.UnchangedFileEntersNoList | etcmaint/etcmaint.py:936-948 | a tracked file whose package digest did not change enters no list, whatever `/etc` holds |
| EtcMaintUpdate.ReinstalledFileEntersNoList | etcmaint/etcmaint.py:889-948 | over a whole scan, reinstalling a file with the digest it already has in etc-tmp lists it nowhere |
| EtcMaintUpdate.CopiedFromEtc | etcmaint/etcmaint.py:82-100 | the copies hold exactly the listed files, each with its `/etc` content |
| EtcMaintUpdate.UpgradeKeepsAgreement | etcmaint/etcmaint.py:742-773 | the upgrade commits keep the agreement of `/etc` with the branches, the files to cherry-pick being pending |
| EtcMaintUpdate.RemovalCascade | etcmaint/etcmaint.py:662-695 | etc-tmp loses exactly its files missing in `/etc`; master-tmp loses exactly its own missing files, among them the etc_removed files it tracks |
| EtcMaintUpdate.RemovedFromBothListedTwice | etcmaint/etcmaint.py:678-692 | an illustration on one input: a file deleted from `/etc` and tracked in both branches appears twice in master_remove |
| EtcMaintUpdate.RemovalKeepsAgreement | etcmaint/etcmaint.py:662-695 | the removals keep the agreement |
| EtcMaintUpdate.CopyFile | etcmaint/etcmaint.py:82-100 | `copy_file` succeeds exactly on a readable file, and the copy has the `/etc` digest |
| EtcMaintUpdate.UserUpdatesMembers | etcmaint/etcmaint.py:697-740 | user_added and user_updated, membership in terms of digests, both the checked version and the one as written |
| EtcMaintUpdate.UnreadableFileIsUserAdded | etcmaint/etcmaint.py:710-724 | as written, an unreadable `/etc` file tracked in etc-tmp only and missing in master-tmp is put in user_added, and its copy then fails |
| EtcMaintUpdate.UserUpdatesCopy | etcmaint/etcmaint.py:710-729 | with the readability check, every file of user_added and user_updated can be copied |
| EtcMaintUpdate.UserUpdatesRestoreAgreement | etcmaint/etcmaint.py:697-740 | `git_user_updates` establishes the agreement with nothing pending, whatever held before |
| EtcMaintUpdate.MasterMirrorsEtc | etcmaint/etcmaint.py:697-740 | afterwards every readable `/etc` file tracked in master-tmp is the same as its master-tmp copy |
| EtcMaintCommands.UpdateResults.constructor | etcmaint/etcmaint.py:321-330 | a new result has all eight lists empty and no branch type |
| EtcMaintCommands.UpdateResults.Lists | etcmaint/etcmaint.py:340-363 | the report's eight lists, in header order |
| EtcMaintCommands.UpdateResults.Report | etcmaint/etcmaint.py:340-363 | `__str__` gives the non-empty listings joined by newlines, and it is empty exactly when every list is |
| EtcMaintCommands.FileNames | etcmaint/etcmaint.py:841-842 | the report's package list has the chosen archives' file names, in order |
| EtcMaintCommands.NewPackagesListed | etcmaint/etcmaint.py:841-842 | corrected: each call extends rslt.new_packages, keeping what was listed and adding the new names; the source assigns it (see Findings) |
| EtcMaintCommands.AurScanDropsCachePackages | etcmaint/etcmaint.py:841-842 | an illustration on one input of the row of "## Findings": with new archives in both the cache and the AUR tree, the list as written reports only the AUR ones; the extended list reports both |
| EtcMaintCommands.ChosenArchives | etcmaint/etcmaint.py:844 | `new_pkgs.values()` gives the chosen archive of each name, in the order of the names given, which ChooseArchives fixes as the insertion order |
| EtcMaintCommands.ChooseArchives | etcmaint/etcmaint.py:775-844 | fails exactly when the timestamps file of a package met among the archive entries holds no number; otherwise the latest candidate per name, in the order of the names' first candidate entries, none when no timestamp is new |
| EtcMaintCommands.ResolveHeading | etcmaint/etcmaint.py:646-650 | "Please resolve the conflict" takes an `s` exactly when there is more than one conflict |
| EtcMaintCommands.ResolveInstructions | etcmaint/etcmaint.py:644-658 | the instructions start with that heading and end with the "start over" line |
| EtcMaintCommands.ConflictMessage | etcmaint/etcmaint.py:612-660 | the conflict message starts with the report and the conflict list, and ends with the instructions unless this is a dry run |
| EtcMaintCommands.SyncedFiles | etcmaint/etcmaint.py:522-531 | sync copies exactly the cherry-picked files that are not excluded and exist in `/etc` |
| EtcMaintCommands.SyncedEtc | etcmaint/etcmaint.py:532-546 | each synced file takes its master-tmp content, and every other file is unchanged |
| EtcMaintCommands.SyncedEtcSnoc | etcmaint/etcmaint.py:526-547 | syncing one more file changes `/etc` at that file only |
| EtcMaintCommands.SyncLoop | etcmaint/etcmaint.py:522-547 | the copy loop syncs exactly those files; a dry run leaves `/etc` as it was |
| EtcMaintCommands.PrevTag | etcmaint/etcmaint.py:565-584 | the `-prev` tag is set, at the branch's old head, exactly when the merge moves the branch |
| EtcMaintCommands.SelectNames | etcmaint/etcmaint.py:662-740 | the appending loops compute the comprehension's filter |
| EtcMaintCommands.CopyFromEtc | etcmaint/etcmaint.py:82-100 | the copy loop raises OSError exactly when some file is unreadable, and otherwise returns the copies |
| EtcMaintCommands.TrackedFilesOf | etcmaint/etcmaint.py:299-313 | `tracked_files(branch)` lists the branch's files under `etc`, each once |
| EtcMaintCommands.EtcMaint.constructor | etcmaint/etcmaint.py:368-383 | a new engine holds its options and empty results |
| EtcMaintCommands.EtcMaint.CommitTimestamps | etcmaint/etcmaint.py:835-842 | the new timestamps are committed to the current branch, and the chosen archives are listed by the corrected extend of rslt.new_packages |
| EtcMaintCommands.EtcMaint.NewPackagesIn | etcmaint/etcmaint.py:775-844 | `new_packages(dir)` fails exactly when the timestamps file of a package met among the entries holds no number, leaving branches and report alone; otherwise it chooses the new archives, moves their cursors in timestamps-tmp and lists them by the corrected extend |
| EtcMaintCommands.EtcMaint.ClassifyExtracted | etcmaint/etcmaint.py:922-948 | the classification loop appends to the three lists exactly the classification's verdicts |
| EtcMaintCommands.EtcMaint.ClassifyOne | etcmaint/etcmaint.py:924-948 | the loop body for one file appends it to the lists its verdict names |
| EtcMaintCommands.EtcMaint.NewArchivesOf | etcmaint/etcmaint.py:913-918 | the archives come from the cache, then from the AUR tree; with the corrected extend both are listed in the report, where the source keeps only the AUR ones |
| EtcMaintCommands.EtcMaint.ArchivesOf | etcmaint/etcmaint.py:915-918 | `new_packages(dir)` returns archives of the directory and lists them by the corrected extend |
| EtcMaintCommands.EtcMaint.ScanCachedir | etcmaint/etcmaint.py:889-948 | only timestamps-tmp moves; the extraction lands in etc-tmp's working tree; the three lists are the classification of what was extracted; the package list is the corrected one |
| EtcMaintCommands.EtcMaint.ExtractAndClassify | etcmaint/etcmaint.py:919-948 | scan then classification, on the etc-tmp working tree |
| EtcMaintCommands.EtcMaint.CommitFiles | etcmaint/etcmaint.py:271-279 | there is a commit exactly when there are files; it applies the changes to the current branch |
| EtcMaintCommands.EtcMaint.GitUpgradedPkgs | etcmaint/etcmaint.py:742-773 | only the temporary branches move; the lists are the classification; etc-tmp gets the extracted pkg_add_etc and cherry_pick files; master-tmp gets the `/etc` copies of pkg_add_master; the cherry-pick commit exists exactly when cherry_pick is not empty; the package list is the corrected one |
| EtcMaintCommands.EtcMaint.CommitUpgrades | etcmaint/etcmaint.py:747-773 | the trees of etc-tmp and master-tmp after the upgrade commits, and the cherry-pick commit exactly when needed |
| EtcMaintCommands.EtcMaint.CommitEtcUpgrades | etcmaint/etcmaint.py:747-755 | the two etc-tmp commits, the second being the returned cherry-pick commit |
| EtcMaintCommands.EtcMaint.CommitMasterAdds | etcmaint/etcmaint.py:761-771 | master-tmp gets the `/etc` copies of pkg_add_master |
| EtcMaintCommands.EtcMaint.GitRemovedFiles | etcmaint/etcmaint.py:662-695 | both branches lose the removal cascade's files, and the two lists are reported |
| EtcMaintCommands.EtcMaint.RemovedFromEtc | etcmaint/etcmaint.py:662-676 | etc-tmp loses exactly the reported etc_removed files |
| EtcMaintCommands.EtcMaint.RemovedFromMaster | etcmaint/etcmaint.py:678-695 | master-tmp loses master_remove |
| EtcMaintCommands.EtcMaint.RemoveFiles | etcmaint/etcmaint.py:281-283 | the branch loses exactly the files |
| EtcMaintCommands.EtcMaint.GitUserUpdates | etcmaint/etcmaint.py:697-740 | corrected: the lists are user_added, with the readability check, and user_updated of the old trees; the update succeeds exactly when all listed files are readable, and then master-tmp gets their copies |
| EtcMaintCommands.EtcMaint.ListUserUpdates | etcmaint/etcmaint.py:697-729 | corrected: the two lists, computed with etc-tmp then master-tmp checked out, user_added skipping unreadable files as user_updated does |
| EtcMaintCommands.EtcMaint.CommitUserUpdates | etcmaint/etcmaint.py:731-740 | both lists are copied and committed; OSError on an unreadable file |
| EtcMaintCommands.EtcMaint.CommitCopies | etcmaint/etcmaint.py:735-740 | the files are copied and committed, or OSError with no branch moved |
| EtcMaintCommands.EtcMaint.CreateTmpBranches | etcmaint/etcmaint.py:553-563 | each branch's `-tmp` branch starts at that branch's head, replacing an old one |
| EtcMaintCommands.EtcMaint.CreateTmpBranch | etcmaint/etcmaint.py:556-563 | one temporary branch at its branch's head |
| EtcMaintCommands.EtcMaint.RemoveTmpBranches | etcmaint/etcmaint.py:565-584 | without master-tmp nothing changes; a dry run only deletes the temporary branches; otherwise the branches are tagged and fast-forwarded, then the temporary branches are deleted |
| EtcMaintCommands.EtcMaint.DeleteTmpBranches | etcmaint/etcmaint.py:565-584 | a dry run deletes the three temporary branches only |
| EtcMaintCommands.EtcMaint.MergeTmpBranches | etcmaint/etcmaint.py:572-584 | the three branches take their temporary heads, with `-prev` tags where they move |
| EtcMaintCommands.EtcMaint.MergeTmpBranch | etcmaint/etcmaint.py:573-584 | one turn of the loop: tag, fast-forward, delete |
| EtcMaintCommands.EtcMaint.GitCherryPick | etcmaint/etcmaint.py:604-660 | only master-tmp moves; it takes git's tree when the pick applies (and this is not a dry run); a stop with no conflicts is the internal error; a stop with conflicts gives the message |
| EtcMaintCommands.EtcMaint.PickWithReport | etcmaint/etcmaint.py:612-660 | the same, once the report is written |
| EtcMaintCommands.EtcMaint.PickOnBranch | etcmaint/etcmaint.py:615-637 | the pick on its own branch: master-tmp moves only on a real, clean pick; the conflicts are parsed from the status |
| EtcMaintCommands.EtcMaint.PickApplied | etcmaint/etcmaint.py:617-624 | a clean pick commits git's tree and fast-forwards master-tmp unless this is a dry run |
| EtcMaintCommands.EtcMaint.PickStopped | etcmaint/etcmaint.py:625-637 | a stopped pick leaves no commit behind |
| EtcMaintCommands.EtcMaint.UpdateTmpBranches | etcmaint/etcmaint.py:590-594 | the temporary branches are created and committed to, other branches are untouched, and the agreement holds after the corrected user changes |
| EtcMaintCommands.EtcMaint.CommitToTmpBranches | etcmaint/etcmaint.py:592-594 | only the temporary branches move, and the agreement holds with nothing pending after the corrected user changes |
| EtcMaintCommands.EtcMaint.RemovalsAndUserUpdates | etcmaint/etcmaint.py:593-594 | removals then the corrected user updates re-establish the agreement |
| EtcMaintCommands.EtcMaint.UpdateRepository | etcmaint/etcmaint.py:589-602 | a cherry-pick exists exactly when cherry_pick is not empty; a dry run leaves branches and tags as they were; a real run either fast-forwards the branches or leaves master-tmp for `sync`; the user changes and package list are the corrected ones |
| EtcMaintCommands.EtcMaint.FastForward | etcmaint/etcmaint.py:586-587 | the branches take the trees of their temporary branches, which are removed; a dry run only removes them |
| EtcMaintCommands.EtcMaint.PickAndKeep | etcmaint/etcmaint.py:596-600 | the cherry-pick, with the temporary branches dropped in a dry run |
| EtcMaintCommands.EtcMaint.CmdSync | etcmaint/etcmaint.py:489-551 | without master-tmp there is nothing to sync; otherwise it fails exactly when no cherry-pick is found, else copies the synced files and fast-forwards unless this is a dry run |
| EtcLegacy.ListFiles | etcmaint.py:49-79 | `list_files` lists exactly the walk's unexcluded files, in walk order |
| EtcLegacy.ReadLinesJoin | etcmaint.py:288-301 | a file written from lines reads back as those lines |
| EtcLegacy.ReadLinesShape | etcmaint.py:288-301 | read lines end with a newline, except perhaps the last |
| EtcLegacy.FirstStamp | etcmaint.py:304-309 | returns the first `TIMESTAMP=` line, or proves there is none |
| EtcLegacy.ValueCorrupted | etcmaint.py:304-309 | `value()` aborts as corrupted exactly when no line starts with `TIMESTAMP=` |
| EtcLegacy.StampLinesShape | etcmaint.py:293-297 | stamping keeps each line's shape |
| EtcLegacy.StampKeepsFirst | etcmaint.py:293-297 | the first `TIMESTAMP=` line stays where it was |
| EtcLegacy.StampedLines | etcmaint.py:288-301 | stamped lines read back, and the first stamp parses as the time |
| EtcLegacy.StampedLineValue | etcmaint.py:295 | the text after the prefix of a stamped line parses as the time |
| EtcLegacy.NowReadsBack | etcmaint.py:288-309 | `now()` fails exactly when `value()` would report corruption; otherwise the file reads back the new time, and the other lines are kept |
| EtcLegacy.NewTimestampIsZero | etcmaint.py:275-283 | the file `Timestamp.new()` writes reads as 0 |
| EtcLegacy.NewTimestampLines | etcmaint.py:275-283 | that file's lines have a file's shape |
| EtcLegacy.NewTimestampFirst | etcmaint.py:275-283 | its `TIMESTAMP=` line comes right after the comments |
| EtcLegacy.ZeroStampValue | etcmaint.py:275-283 | its value parses as 0 |
| EtcLegacy.NowAsWrittenGlues | etcmaint.py:293-300 | as written, `now()` glues the `TIMESTAMP=` line to the next one |
| EtcLegacy.GluedValueFails | etcmaint.py:304-309 | `value()` on the glued line raises ValueError |
| EtcLegacy.NowAsWrittenBreaksValue | etcmaint.py:288-309 | as written, a timestamp file with a comment after the stamp becomes unreadable; keeping the newline, it reads back the time |
| EtcLegacy.Now | etcmaint.py:288-301 | the method computes the corrected `now()` |
| EtcLegacy.StampAll | etcmaint.py:290-297 | the loop stamps each line and notes whether some line had the prefix |
| LegacyEngine.LegacyCandidate | etcmaint.py:664-693 | an entry is a candidate exactly when it is an archive newer than the timestamp, not excluded, with four fields; its name precedes the fields |
| LegacyEngine.PickSkip | etcmaint.py:664-693 | a non-candidate or a non-greater file name leaves the choice unchanged |
| LegacyEngine.PickTake | etcmaint.py:664-693 | a greater file name replaces the choice |
| LegacyEngine.PickedGreatest | etcmaint.py:664-693 | each package keeps the archive with the greatest file name, the first such |
| LegacyEngine.PickedUnique | etcmaint.py:664-693 | the choice is determined by the entries |
| LegacyEngine.NewPackages | etcmaint.py:664-693 | the loop computes that choice, listing each name once |
| LegacyEngine.LegacyMembers | etcmaint.py:695-730 | the extracted members are exactly the kept ones |
| LegacyEngine.RecallEffect | etcmaint.py:695-730 | each extracted path is recorded with its old digest, once, and the tree is untouched |
| LegacyEngine.OverlayContent | etcmaint.py:695-730 | every extracted path holds a member's content |
| LegacyEngine.UnpackAllEffect | etcmaint.py:695-730 | the scan extracts the kept members of all archives and nothing else, once each, and leaves other files alone |
| LegacyEngine.UnpackPackage | etcmaint.py:695-730 | the method extracting one archive computes `extract_from`'s effect |
| LegacyEngine.Unpack | etcmerger.py:594-632 | the extraction loop computes the whole scan |
| LegacyEngine.LegacyClassificationMembers | etcmaint.py:732-788 | the three lists in terms of digests, with None for an unreadable `/etc` file |
| LegacyEngine.LegacyClassificationDisjoint | etcmaint.py:732-788 | pkg_add_master is part of pkg_add_etc and holds no tracked file; cherry_pick is disjoint from pkg_add_etc; an unchanged file enters no list |
| LegacyEngine.SortExtracted | etcmaint.py:761-788 | the loop over the extracted files computes the three lists |
| LegacyEngine.LegacyRemovalCascade | etcmaint.py:555-581 | etc_removed is exactly the missing files of etc-tmp except `.gitignore` and the timestamp file; afterwards etc-tmp holds only present or excluded files |
| LegacyEngine.RemoveIn | etcmaint.py:215-217 | the branch loses exactly the files; with no file nothing moves |
| LegacyEngine.GitRemovedPkgs | etcmaint.py:555-581 | etc-tmp loses etc_removed, and master-tmp loses those of them it tracks |
| LegacyEngine.RemovedFromEtcTmp | etcmaint.py:555-570 | the etc-tmp half of that |
| LegacyEngine.RemovedFromMasterTmp | etcmaint.py:572-581 | the master-tmp half of that |
| LegacyEngine.CreateTmpBranches | etcmaint.py:449-459 | etc-tmp and master-tmp start at etc's and master's heads, and HEAD ends on master-tmp |
| LegacyEngine.CreateTmpBranch | etcmaint.py:450-459 | one temporary branch at its branch's head |
| LegacyEngine.RemoveTmpBranches | etcmaint.py:461-472 | returns False and changes nothing without master-tmp; otherwise master and etc are fast-forwarded and the temporary branches deleted |
| LegacyEngine.MergeTmpBranch | etcmaint.py:467-471 | one turn: checkout, merge, delete |
| LegacyEngine.RoundTripOfTmpBranches | etcmaint.py:449-472 | create then remove leaves master and etc where the temporary branches reached, with no temporary branch behind |
| LegacyEngine.CommitNow | etcmaint.py:288-301 | corrected: `now()` on etc raises FileNotFoundError without the file, aborts as corrupted without a stamp line, and otherwise commits the file stamped with the line's newline kept |
| LegacyEngine.Finalize | etcmaint.py:474-478 | finalize does nothing without master-tmp; otherwise it merges and then stamps etc with the time by the corrected `now()` |
| LegacyEngine.StampIn | etcmaint.py:304-309 | reading a missing timestamp file raises FileNotFoundError; the only errors are that, ValueError and corruption |
| LegacyEngine.FinalizedStampReadsBack | etcmaint.py:288-309 | corrected: what finalize writes on etc with the newline kept reads back as the time at the next update |
| LegacyEngine.LiveCopied | etcmaint.py:91-105 | the copies hold exactly the readable listed files, with their `/etc` digests |
| LegacyEngine.CopyLive | etcmaint.py:91-105 | the copy loop raises OSError exactly when a file is unreadable, and otherwise returns the copies |
| LegacyEngine.CommitListed | etcmaint.py:205-213 | there is a commit exactly when there are files |
| LegacyEngine.ChooseLegacy | etcmaint.py:664-693 | the returned archives are the chosen ones |
| EtcMaintV01.InitCheckV01 | etcmaint.py:143-170 | the repository is accepted exactly when the second line is the first commit message, the status is clean and no cherry-pick is in progress; fewer than two lines raise IndexError |
| EtcMaintV01.InitChecksAgree | etcmaint.py:143-170 | every repository the current version accepts, v0.1 accepts too, and the reverse holds when rev-list prints two lines |
| EtcMaintV01.StrFileListV01 | etcmaint.py:107-111 | no listing for no file; otherwise the header line comes first |
| EtcMaintV01.StrFileListV01Lines | etcmaint.py:107-111 | a listing's lines are the header and the indented files in the given order |
| EtcMaintV01.StrFileListSortsV01 | etcmaint.py:107-111 | the current version's listing is v0.1's listing of the sorted files |
| EtcMaintV01.BranchHeaderInjective | etcmaint.py:329-345 | headers with the same start are equal exactly when they name the same branch |
| EtcMaintV01.HeaderAsWrittenShowsPlaceholder | etcmaint.py:339-343 | as written, the package headers differ from the intended ones for every branch type |
| EtcMaintV01.ListingsV01 | etcmaint.py:329-345 | corrected: one listing per list, under the intended headers of the branch type, not the source's `{btype}` placeholders |
| EtcMaintV01.ReportOfListingsV01 | etcmaint.py:322-345 | from an empty result the report joins the present listings, and it is empty exactly when every list is |
| EtcMaintV01.UpdateResults.constructor | etcmaint.py:312-320 | a new result has empty lists, an empty text and no branch type |
| EtcMaintV01.UpdateResults.Lists | etcmaint.py:329-345 | the six lists, in header order |
| EtcMaintV01.UpdateResults.AddListTo | etcmaint.py:322-327 | `add_list` appends the listing, after a newline when text is already there |
| EtcMaintV01.UpdateResults.Str | etcmaint.py:329-345 | `__str__` appends the listings, under the corrected headers, to the stored text; from an empty text that is the report; a second call appends it again |
| EtcMaintV01.UserUpdatesV01Members | etcmaint.py:583-630 | user_added and user_updated in terms of digests |
| EtcMaintV01.UserUpdatesV01Restore | etcmaint.py:583-630 | after the copies, each listed file is the same as its etc-tmp copy or tracked in master-tmp, and each listed master-tmp file mirrors `/etc` |
| EtcMaintV01.UpgradeCommitsV01 | etcmaint.py:632-662 | after the upgrade commits, the files of each list hold the content the classification promised |
| EtcMaintV01.ScanArchives | etcmaint.py:732-788 | the archives are chosen, extracted and classified |
| EtcMaintV01.EtcMerger.constructor | etcmaint.py:350-366 | a new engine holds its options and empty results |
| EtcMaintV01.EtcMerger.ReadTimestamp | etcmaint.py:304-309 | the timestamp is read from etc-tmp with no branch moved |
| EtcMaintV01.EtcMerger.ScanCachedir | etcmaint.py:732-788 | the chosen archives are extracted over etc-tmp, and the lists are their classification |
| EtcMaintV01.EtcMerger.GitUpgradedPkgs | etcmaint.py:632-662 | fails exactly when the timestamp cannot be read, with nothing moved; otherwise it makes the upgrade commits of the classification |
| EtcMaintV01.EtcMerger.CommitUpgrades | etcmaint.py:637-662 | the trees of etc-tmp and master-tmp after the upgrade commits |
| EtcMaintV01.EtcMerger.CommitMasterAdds | etcmaint.py:650-660 | master-tmp gets the `/etc` copies of pkg_add_master |
| EtcMaintV01.EtcMerger.GitRemovedPkgs | etcmaint.py:555-581 | both branches lose the removal cascade's files |
| EtcMaintV01.EtcMerger.GitUserUpdates | etcmaint.py:583-630 | the lists are user_added and user_updated; the update succeeds exactly when every listed file is readable, and then master-tmp gets their copies |
| EtcMaintV01.EtcMerger.SelectUserChanges | etcmaint.py:583-621 | the comparisons compute the two lists and move no branch |
| EtcMaintV01.EtcMerger.CommitCopies | etcmaint.py:622-630 | the files are copied and committed, or OSError |
| EtcMaintV01.EtcMerger.GitCherryPick | etcmaint.py:498-553 | corrected: the report has the `-tmp` headers; a clean pick fast-forwards master-tmp unless this is a dry run; HEAD ends on master-tmp |
| EtcMaintV01.EtcMerger.PrintReport | etcmaint.py:499-507 | master-tmp is checked out and the report is printed with the `-tmp` headers, in their corrected form |
| EtcMaintV01.EtcMerger.PickOnBranch | etcmaint.py:510-533 | the corrected pick on its own branch |
| EtcMaintV01.EtcMerger.GitCherryPickAsWritten | etcmaint.py:498-553 | as written, a dry run whose pick applies fails to delete the branch HEAD is on and aborts, leaving the branch |
| EtcMaintV01.EtcMerger.PickOnBranchAsWritten | etcmaint.py:510-533 | the pick as written |
| EtcMaintV01.EtcMerger.PickApplied | etcmaint.py:511-518 | corrected: a clean pick returns to master-tmp and fast-forwards it unless this is a dry run |
| EtcMaintV01.EtcMerger.PickAppliedAsWritten | etcmaint.py:511-518 | as written, only a real run returns to master-tmp |
| EtcMaintV01.EtcMerger.PickStopped | etcmaint.py:519-531 | a stopped pick leaves no commit behind |
| EtcMaintV01.EtcMerger.EndDryRunAsWritten | etcmaint.py:492-493 | as written, a dry run fast-forwards master and etc |
| EtcMaintV01.EtcMerger.EndDryRun | etcmaint.py:492-493 | corrected: a dry run only deletes the temporary branches |
| EtcMaintV01.EtcMerger.UpdateTmpBranches | etcmaint.py:482-486 | the temporary branches are created and committed to; other branches are untouched |
| EtcMaintV01.EtcMerger.RemovedAndUserUpdates | etcmaint.py:485-486 | afterwards each listed file is the same as its etc-tmp copy or tracked in master-tmp |
| EtcMaintV01.EtcMerger.PackageUpdates | etcmaint.py:482-484 | the temporary branches are created and the upgrade commits made |
| EtcMaintV01.EtcMerger.FinishUpdate | etcmaint.py:491-496 | corrected: a dry run drops the temporary branches without merging, where the source fast-forwards master and etc; a real run finalizes, and etc's timestamp then reads the time |
| EtcMaintV01.EtcMerger.UpdateRepository | etcmaint.py:480-496 | returns True exactly when there is nothing to cherry-pick; False leaves the temporary branches for sync; True merges in a real run; a dry run follows the corrected pick and end |
| EtcMaintV01.EtcMerger.PickOrFinish | etcmaint.py:488-496 | the corrected pick or the corrected end of the update, True exactly without a pick |
| EtcMergerScript.DryRunLineSplits | etcmerger.py:99-102 | the printed dry-run line splits back into the command |
| EtcMergerScript.RunCmd | etcmerger.py:98-108 | a dry run prints the command and returns None; otherwise it returns the output, or the abort of a failing command |
| EtcMergerScript.GitCmd | etcmerger.py:161-169 | in a dry run, `None.strip` raises AttributeError; otherwise it returns the output with no newline at either end |
| EtcMergerScript.InitCheck | etcmerger.py:141-159 | accepted exactly in a real run whose second rev-list line is the first commit message and whose status is empty; IndexError exactly when there are fewer than two lines |
| EtcMergerScript.InitAcceptsFirstCommit | etcmerger.py:141-159 | the repository `create` makes passes the check |
| EtcMergerScript.FirstCommitLines | etcmerger.py:143-145 | the stripped rev-list output of the first commit splits into the header and the message |
| EtcMergerScript.ListBlock | etcmerger.py:276-278 | an empty list adds nothing; otherwise the block starts with the separator and the header and ends with a newline |
| EtcMergerScript.ListBlockReadsBack | etcmerger.py:276-278 | a block's files read back, one per line |
| EtcMergerScript.Report | etcmerger.py:275-310 | with nothing to report, the report is only the closing line |
| EtcMergerScript.ReportClosing | etcmerger.py:275-310 | the report ends with "No files to sync to /etc" exactly when there is nothing to cherry-pick |
| EtcMergerScript.UpdateResults.constructor | etcmerger.py:267-273 | a new result has empty lists and no branch type |
| EtcMergerScript.UpdateResults.Str | etcmerger.py:275-310 | the same closing property for the stored lists |
| EtcMergerScript.UserUpdatesMembers | etcmerger.py:471-517 | user_updates in terms of digests |
| EtcMergerScript.UserUpdatesSettle | etcmerger.py:471-517 | after the copies, the listed files agree with the branches, and a second pass finds nothing |
| EtcMergerScript.EtcMerger.constructor | etcmerger.py:315-331 | a new engine holds its options and empty results |
| EtcMergerScript.EtcMerger.ReadTimestamp | etcmerger.py:259-264 | the timestamp is read from etc-tmp with no branch moved |
| EtcMergerScript.EtcMerger.ScanCachedir | etcmerger.py:634-691 | the chosen archives are extracted over etc-tmp, and the lists are their classification |
| EtcMergerScript.EtcMerger.CommitEtcTmp | etcmerger.py:524-534 | etc-tmp gets pkg_add_etc, then cherry_pick in a commit of its own |
| EtcMergerScript.EtcMerger.CommitUpgradesAsWritten | etcmerger.py:524-561 | as written, the commits fail exactly when there is something to cherry-pick, with the `git git` error |
| EtcMergerScript.EtcMerger.CommitUpgrades | etcmerger.py:524-561 | corrected: the upgrade commits, failing exactly when the cherry-pick stops |
| EtcMergerScript.EtcMerger.CommitMasterAdds | etcmerger.py:541-550 | master-tmp gets the `/etc` copies of pkg_add_master |
| EtcMergerScript.EtcMerger.CherryPickOnMaster | etcmerger.py:554-561 | the pick commits git's tree on master-tmp, and a stop aborts with nothing moved |
| EtcMergerScript.EtcMerger.GitUpgradedPkgsAsWritten | etcmerger.py:519-561 | as written, the update aborts whenever there is a file to cherry-pick |
| EtcMergerScript.EtcMerger.GitUpgradedPkgs | etcmerger.py:519-561 | corrected: the timestamp error passes through with nothing moved; otherwise the upgrade commits are made |
| EtcMergerScript.EtcMerger.GitRemovedPkgs | etcmerger.py:442-469 | both branches lose the removal cascade's files |
| EtcMergerScript.EtcMerger.GitUserUpdates | etcmerger.py:471-517 | user_updates is computed; it succeeds exactly when all listed files are readable, and master-tmp gets their copies |
| EtcMergerScript.EtcMerger.SelectUserUpdates | etcmerger.py:471-511 | the comparisons compute user_updates and move no branch |
| EtcMergerScript.EtcMerger.CommitCopies | etcmerger.py:513-517 | the files are copied and committed, or OSError |
| EtcMergerScript.EtcMerger.PackageUpdates | etcmerger.py:355-359 | the temporary branches are created and the corrected upgrade commits made, where the source aborts whenever there is a file to cherry-pick |
| EtcMergerScript.EtcMerger.RemovedAndUserUpdates | etcmerger.py:360-361 | afterwards git_user_updates would find nothing |
| EtcMergerScript.EtcMerger.UpdateTmpBranches | etcmerger.py:357-361 | the commits to the temporary branches, with the corrected upgrade commits, other branches untouched |
| EtcMergerScript.EtcMerger.FinishUpdate | etcmerger.py:363-368 | a dry run removes the temporary branches; a real run without picks finalizes, and etc's timestamp then reads the time by the corrected `now()`; with picks nothing moves; HEAD ends on master |
| EtcMergerScript.EtcMerger.UpdateBranches | etcmerger.py:355-368 | `_cmd_update` after init, with the corrected upgrade commits: the branch effects of the whole update |
| EtcMergerScript.EtcMerger.CmdUpdate | etcmerger.py:370-379 | a dry run fails with AttributeError with nothing changed; otherwise the update, with the corrected upgrade commits and stamp, and its report |
| EtcMergerScript.EtcMerger.UpdateAndReport | etcmerger.py:370-379 | with the corrected upgrade commits, the report has the `-tmp` headers exactly when there is something to cherry-pick |
| EtcMergerScript.EtcMerger.PrintResults | etcmerger.py:374-376 | the branch type is `-tmp` exactly while master-tmp remains |

## Left out

- Threads: the current version extracts the archives in a thread pool. The model extracts them one after the other, in the order the futures were submitted.
- Time: mtimes and `time.time()` are integers passed in. `float()` is modelled as parsing an integer.
- File modes: only the owner read-write formula of `scan` is modelled. `os.stat`, `chmod` and the mode `sync` restores on `/etc` files are not.
- Prints, warnings, `dedent` and text wrapping are not modelled. Only the texts that reach the report or an error are.
- The working tree outside the branches' trees is not modelled: files left by an extraction, `git clean`, and what an aborted cherry-pick of `etcmerger.py` leaves behind. Whether `.git/CHERRY_PICK_HEAD` exists is an input to the checks of `GitRepo.init` in the two later versions.
- The orders of `os.walk`, `os.scandir` and `dict` are inputs, given as sequences.
- Git's failure texts are not modelled. A failing command is `GitError(cmd)`.
- Git's three-way merge is an input: the tree or the conflict status of a cherry-pick.
- The tarfile reader, sha1 and `Path.resolve` are inputs: an archive's member list, a file's digest and a link's resolved target.
- `cmd_diff`, `cmd_create` and `cmd_init` of the three versions are not modelled, nor `sync` of the two older versions. `argparse` is not modelled beyond the option lists.
- EtcMaintCommands.EtcMaint.GitCherryPick: does not model the warnings about files missing on master-tmp before the pick, because they only print.
- EtcMaintCommands.EtcMaint.CmdSync: does not model the removal of links before a copy, nor OSError while copying, because links and errors of the file system are outside the model.
- EtcMergerScript.EtcMerger.FinishUpdate: in a dry run it states only that the temporary branches are gone, not where master and etc end up; `LegacyEngine.RemoveTmpBranches` states that, and keeping the two together made the proof too costly; in a real run it stamps etc with the corrected `now()` (Findings, etcmaint.py:293-296 and etcmerger.py:243-256), not the one that glues the stamp to the next line.
- GitStore.GitRepo.Merge: models only the fast-forward. It assumes the current branch's head is an ancestor of the merged branch, so no commit was made on master or etc between `update` and `sync`; a true merge or a merge conflict is not modelled, and the promises of RemoveTmpBranches, MergeTmpBranches, FastForward, CmdSync and LegacyEngine.RemoveTmpBranches that the branches take the temporary trees rest on that assumption.
- GitStore.GitRepo.Commit: never fails, also when the commit would change nothing, where `git commit` exits with an error; the callers commit only non-empty lists, which makes that case rare.
- The members below run the corrected half of a row of "## Findings", as the rest of the model does. Each as-written half is modelled beside it with its discrepancy proved, but these members do not promise what the program as written does.
- EtcMaintCommands.EtcMaint.CommitTimestamps: lists the archives by extending rslt.new_packages (NewPackagesListed); etcmaint/etcmaint.py:841 assigns it, so after the AUR scan the source reports only the AUR archives (AurScanDropsCachePackages).
- EtcMaintCommands.EtcMaint.NewPackagesIn: lists the archives by extending rslt.new_packages (NewPackagesListed); etcmaint/etcmaint.py:841 assigns it, so after the AUR scan the source reports only the AUR archives (AurScanDropsCachePackages).
- EtcMaintCommands.EtcMaint.ArchivesOf: lists the archives by extending rslt.new_packages (NewPackagesListed); etcmaint/etcmaint.py:841 assigns it, so after the AUR scan the source reports only the AUR archives (AurScanDropsCachePackages).
- EtcMaintCommands.EtcMaint.NewArchivesOf: lists the archives by extending rslt.new_packages (NewPackagesListed); etcmaint/etcmaint.py:841 assigns it, so after the AUR scan the source reports only the AUR archives (AurScanDropsCachePackages).
- EtcMaintCommands.EtcMaint.ScanCachedir: lists the archives by extending rslt.new_packages (NewPackagesListed); etcmaint/etcmaint.py:841 assigns it, so after the AUR scan the source reports only the AUR archives (AurScanDropsCachePackages).
- EtcMaintCommands.EtcMaint.GitUpgradedPkgs: lists the archives by extending rslt.new_packages (NewPackagesListed); etcmaint/etcmaint.py:841 assigns it, so after the AUR scan the source reports only the AUR archives (AurScanDropsCachePackages).
- EtcMaintCommands.EtcMaint.ListUserUpdates: user_added skips unreadable files; as written (etcmaint/etcmaint.py:721-723) it takes an unreadable file tracked in etc-tmp only, and `copy_file` then raises OSError (UnreadableFileIsUserAdded), where this member succeeds.
- EtcMaintCommands.EtcMaint.GitUserUpdates: user_added skips unreadable files; as written (etcmaint/etcmaint.py:721-723) it takes an unreadable file tracked in etc-tmp only, and `copy_file` then raises OSError (UnreadableFileIsUserAdded), where this member succeeds.
- EtcMaintCommands.EtcMaint.RemovalsAndUserUpdates: user_added skips unreadable files; as written (etcmaint/etcmaint.py:721-723) it takes an unreadable file tracked in etc-tmp only, and `copy_file` then raises OSError (UnreadableFileIsUserAdded), where this member succeeds.
- EtcMaintCommands.EtcMaint.UpdateTmpBranches: user_added skips unreadable files; as written (etcmaint/etcmaint.py:721-723) it takes an unreadable file tracked in etc-tmp only, and `copy_file` then raises OSError (UnreadableFileIsUserAdded), where this member succeeds; it also lists the archives by the corrected extend of rslt.new_packages (AurScanDropsCachePackages).
- EtcMaintCommands.EtcMaint.CommitToTmpBranches: user_added skips unreadable files; as written (etcmaint/etcmaint.py:721-723) it takes an unreadable file tracked in etc-tmp only, and `copy_file` then raises OSError (UnreadableFileIsUserAdded), where this member succeeds; it also lists the archives by the corrected extend of rslt.new_packages (AurScanDropsCachePackages).
- EtcMaintCommands.EtcMaint.UpdateRepository: user_added skips unreadable files; as written (etcmaint/etcmaint.py:721-723) it takes an unreadable file tracked in etc-tmp only, and `copy_file` then raises OSError (UnreadableFileIsUserAdded), where this member succeeds; it also lists the archives by the corrected extend of rslt.new_packages (AurScanDropsCachePackages).
- LegacyEngine.CommitNow: stamps etc with the corrected `now()` (NowReadsBack), which keeps the newline of the `TIMESTAMP=` line; etcmaint.py:295 drops it, so the committed tree differs and a stamp followed by another line no longer reads back (NowAsWrittenBreaksValue).
- LegacyEngine.Finalize: stamps etc with the corrected `now()` (NowReadsBack), which keeps the newline of the `TIMESTAMP=` line; etcmaint.py:295 drops it, so the committed tree differs and a stamp followed by another line no longer reads back (NowAsWrittenBreaksValue).
- LegacyEngine.FinalizedStampReadsBack: holds for the corrected stamp only; as written a line after the `TIMESTAMP=` line makes the next read fail (NowAsWrittenBreaksValue).
- EtcMaintV01.ListingsV01: prints the intended package headers; etcmaint.py:339-343 prints `etc{btype}` and `master{btype}` literally (HeaderAsWrittenShowsPlaceholder).
- EtcMaintV01.UpdateResults.Str: prints the intended package headers; etcmaint.py:339-343 prints `etc{btype}` and `master{btype}` literally (HeaderAsWrittenShowsPlaceholder).
- EtcMaintV01.EtcMerger.PrintReport: prints the intended package headers; etcmaint.py:339-343 prints `etc{btype}` and `master{btype}` literally (HeaderAsWrittenShowsPlaceholder).
- EtcMaintV01.EtcMerger.FinishUpdate: uses the corrected EndDryRun; as written a dry run fast-forwards master and etc to the temporary branches (etcmaint.py:492-493, EndDryRunAsWritten). Its real run stamps etc with the corrected `now()` (NowAsWrittenBreaksValue).
- EtcMaintV01.EtcMerger.UpdateRepository: uses the corrected EndDryRun and GitCherryPick; as written a dry run fast-forwards master and etc to the temporary branches (etcmaint.py:492-493, EndDryRunAsWritten), and a dry run whose pick applies fails on `branch --delete` (etcmaint.py:510-533, GitCherryPickAsWritten).
- EtcMaintV01.EtcMerger.PickOrFinish: uses the corrected EndDryRun and GitCherryPick; as written a dry run fast-forwards master and etc to the temporary branches (etcmaint.py:492-493, EndDryRunAsWritten), and a dry run whose pick applies fails on `branch --delete` (etcmaint.py:510-533, GitCherryPickAsWritten).
- EtcMergerScript.EtcMerger.PackageUpdates: uses the corrected GitUpgradedPkgs; as written every update with a file to cherry-pick aborts at `git git rev-list` (etcmerger.py:535, GitUpgradedPkgsAsWritten), so the pick, the rest of the update and its report are never reached.
- EtcMergerScript.EtcMerger.UpdateTmpBranches: uses the corrected GitUpgradedPkgs; as written every update with a file to cherry-pick aborts at `git git rev-list` (etcmerger.py:535, GitUpgradedPkgsAsWritten), so the pick, the rest of the update and its report are never reached.
- EtcMergerScript.EtcMerger.UpdateBranches: uses the corrected GitUpgradedPkgs; as written every update with a file to cherry-pick aborts at `git git rev-list` (etcmerger.py:535, GitUpgradedPkgsAsWritten), so the pick, the rest of the update and its report are never reached.
- EtcMergerScript.EtcMerger.CmdUpdate: uses the corrected GitUpgradedPkgs; as written every update with a file to cherry-pick aborts at `git git rev-list` (etcmerger.py:535, GitUpgradedPkgsAsWritten), so the pick, the rest of the update and its report are never reached.
- EtcMergerScript.EtcMerger.UpdateAndReport: uses the corrected GitUpgradedPkgs; as written every update with a file to cherry-pick aborts at `git git rev-list` (etcmerger.py:535, GitUpgradedPkgsAsWritten), so the pick, the rest of the update and its report are never reached.

## Findings

| source | as written | input that shows it | evidently intended | confidence | as-written member | corrected member |
|---|---|---|---|---|---|---|
| etcmaint.py:293-296 | `now()` replaces the `TIMESTAMP=` line by the prefix and the time without its newline, gluing it to the next line | a timestamp file `TIMESTAMP=0\n#\n` becomes `TIMESTAMP=1#\n`, and `value()` then raises ValueError (the same code is at etcmerger.py:243-256) | keep the line's newline, so the file reads back the new time | not executed | EtcLegacy.NowAsWrittenBreaksValue | EtcLegacy.NowReadsBack |
| etcmaint/etcmaint.py:710-724 | user_added takes every `/etc` file that differs from etc-tmp and is missing in master-tmp, without the `b''` check user_updated has | an unreadable `/etc/shadow` tracked in etc-tmp only goes to user_added, and `copy_file` then fails | skip unreadable files, as user_updated does | not executed | EtcMaintUpdate.UnreadableFileIsUserAdded | EtcMaintUpdate.UserUpdatesCopy |
| etcmaint/etcmaint.py:841-842 | each `new_packages` call assigns rslt.new_packages, so the AUR scan replaces the list of the cache scan | new archives in both the cache and the AUR tree: only the AUR ones are reported | extend the list | not executed | EtcMaintCommands.AurScanDropsCachePackages | EtcMaintCommands.NewPackagesListed |
| etcmaint.py:510-533 | in a dry run whose cherry-pick applies, HEAD stays on `cherry-pick`, and `git branch --delete cherry-pick` in the `finally` clause fails | a dry-run update with a file to cherry-pick that applies cleanly | return to master-tmp in every case, as the current version does | not executed | EtcMaintV01.EtcMerger.GitCherryPickAsWritten | EtcMaintV01.EtcMerger.GitCherryPick |
| etcmaint.py:339-343 | the second half of the two package headers is not an f-string, so they print `'etc{btype}'` and `'master{btype}'` | any report with pkg_add_etc or pkg_add_master | name the `etc`/`etc-tmp` and `master`/`master-tmp` branches | not executed | EtcMaintV01.HeaderAsWrittenShowsPlaceholder | EtcMaintV01.BranchHeaderInjective |
| etcmaint.py:492-493 | a dry run ends with `remove_tmp_branches`, which fast-forwards master and etc to the temporary branches | a dry-run update with no file to cherry-pick moves master and etc | drop the temporary branches without merging | not executed | EtcMaintV01.EtcMerger.EndDryRunAsWritten | EtcMaintV01.EtcMerger.EndDryRun |
| etcmerger.py:535 | the id of the cherry_pick commit is read with `git git rev-list -1 HEAD --`, which git refuses | any update with a file to cherry-pick aborts right after committing to etc-tmp | `git rev-list -1 HEAD --` | not executed | EtcMergerScript.EtcMerger.GitUpgradedPkgsAsWritten | EtcMergerScript.EtcMerger.GitUpgradedPkgs |
