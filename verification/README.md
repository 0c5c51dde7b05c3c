# QtGenTools in Dafny

QtGenTools is a small incremental driver for the Qt code generators moc, uic and rcc.
It walks an input directory and hands each file to the first tool that accepts it:
- moc takes headers containing `Q_OBJECT`;
- uic takes `.ui` forms;
- rcc takes `.qrc` resource manifests.

A tool runs only when its output in the flat output directory is missing or older than
its input. For rcc, "older" also covers the resources the manifest names. Outputs of
earlier runs that no current input accounts for are deleted. The run ends with a report
listing what was generated, updated and deleted, the four counts, and the files whose
tool could not be started.

This project models that core as pure functions over immutable values, and proves what
the code promises about them.

- `wrappers.dfy`: `Option` and `Result`.
- `string_utils.dfy` (`StringUtils.h`): `std::string::find`/`rfind`, `beginsWith`,
  `endsWith` with its first-occurrence quirk, `ltrim`/`rtrim`/`trim`, `split` over
  `getline`, and `replace`. `replace` is given fuel because it need not terminate.
- `file_system.dfy`: the filesystem as a directory tree `Node = File(mtime, lines) | Dir(entries)`.
  - Paths resolve as a POSIX system without symbolic links resolves them, with the working
    directory at the top of the tree.
  - `stat`, `isFile`, `isDir`, `mkdir` and `unlink` become queries and updates of the tree.
  - A generator writing its output becomes `WriteFile`.
- `file_utils.dfy` (`FileUtils.h`): `splitExt`, `parentDir`, and the POSIX branches of
  `listDir` and `walk`. `walk` is the sequence of calls it makes to its action.
- `qt_tool.dfy` (`QtTool.h`, `QtTool.cpp`):
  - the three tool variants as a tag;
  - `init` with its quoting, and `setCmdOpts`;
  - `isFileInput` and `getOutFilename`;
  - the default and the rcc staleness rules;
  - the command line, and `runIfNeeded` against a launch oracle.
- `report.dfy` (`main.cpp`): the report as a sequence of lines.
- `driver.dfy` (`main.cpp`): `Driver::operator()` as `Dispatch`, the walk as a fold
  `DispatchAll`, the clean-up loop as `Reconcile`, and `Driver::run` as `Run`.
- `*_properties.dfy`: the lemmas about each of the above.
  - `run_properties.dfy` ties the walk, the dispatch and the clean-up together.

Process launch is a parameter `launch: string -> Launch`. For each command line it says
one of three things:
- the process could not be started;
- it ran and wrote an output (a modification time and lines);
- it ran and wrote nothing.

The driver never looks at the exit status, so the model does not have one. What the
generator writes, and when, is not decided by this code, so it stays a parameter too.

Points where the code behaves differently from what one might assume:
- `.qrc` entries are not trimmed; only an empty name between `<file>` and `</file>` is skipped.
- The output path of a file whose tool could not be started is not added to the expected
  outputs. An older output of that file is therefore deleted as an orphan.
- Tool selection uses `endsWith` on the full path. `endsWith` tests that the FIRST
  occurrence of the pattern is at the end, so it is not a plain extension test. A header
  in a directory such as `src/my.http/` is not recognised, and neither is a file named
  `a.hx.h`.
- `Driver::run` only creates a missing output directory; it does not check the input
  directory (`main` does that before calling it). A failure to create the output
  directory is an uncaught exception in the source. Here it is `Run`'s `Failure` result.
- A deletion that fails is left out of `deleted`, so `deleted` is the prior outputs minus
  the expected ones only for the files that could be removed.

## Model

| member | source | states |
|---|---|---|
| StringUtils.Find | StringUtils.h:92 | `find` gives the first index at which the pattern occurs, and nothing exactly when it occurs nowhere |
| StringUtils.RFind | FileUtils.h:135 | `rfind(c, pos)` gives the last index not after `pos` holding `c`; no index in between holds `c` |
| StringUtils.BeginsWith | StringUtils.h:89-94 | `beginsWith` holds exactly when the pattern is a prefix of the string |
| StringUtils.EndsWith | StringUtils.h:98-104 | `endsWith` holds exactly when the pattern is a suffix and occurs nowhere earlier; so it implies the suffix |
| StringUtils.EndsWithIsNotSuffixTest | StringUtils.h:98-104 | the converse fails: "a.hx.h" ends with ".h", yet `endsWith` is false because the first ".h" is not at the end |
| StringUtils.EndsWithLongerPattern | StringUtils.h:101-103 | a pattern longer than the string never passes |
| StringUtils.EndsWithAbsentPattern | StringUtils.h:101-102 | a pattern that does not occur never passes |
| StringUtils.EndsWithEmptyPattern | StringUtils.h:101-103 | the empty pattern passes only for the empty string |
| StringUtils.LTrim | StringUtils.h:34-40 | `ltrim` keeps a suffix, drops only white space, and leaves no leading white space |
| StringUtils.RTrim | StringUtils.h:42-48 | `rtrim` keeps a prefix, drops only white space, and leaves no trailing white space |
| StringUtils.Trim | StringUtils.h:50-55 | `trim` is a contiguous piece of the string, surrounded only by white space, with no white space at either end |
| StringUtils.LTrimKeepsClean | StringUtils.h:34-40 | `ltrim` leaves a string that does not start with white space unchanged |
| StringUtils.RTrimKeepsClean | StringUtils.h:42-48 | `rtrim` leaves a string that does not end with white space unchanged |
| StringUtils.TrimIdempotent | StringUtils.h:50-55 | trimming twice is trimming once |
| StringUtils.Split | StringUtils.h:76-85 | no piece contains the delimiter; there are pieces exactly when the string is non-empty |
| StringUtils.SplitJoin | StringUtils.h:76-85 | joining the pieces with the delimiter gives back the string, minus one trailing delimiter if it had one |
| StringUtils.SplitExamples | StringUtils.h:76-85 | "a::b" gives ["a","","b"], "a:" gives ["a"], ":" gives [""], "" gives [] |
| StringUtils.ReplaceAll | StringUtils.h:60-73 | when the loop ends, the pattern occurs nowhere in the result; the string comes back unchanged exactly when the pattern does not occur in it |
| StringUtils.ReplaceAllStep | StringUtils.h:66-71 | one round replaces the first occurrence of the pattern, at the index `find` gives, by `repl` and searches again |
| StringUtils.ReplaceAllOnce | StringUtils.h:64-72 | when one replacement leaves no occurrence, the result is the string with its first occurrence swapped for `repl` |
| StringUtils.ReplaceAllLength | StringUtils.h:64-72 | a reached result is as long as the string after k rounds, each swapping the pattern's length for `repl`'s; k is at most the fuel and is 0 exactly when the pattern did not occur |
| StringUtils.ReplaceAllIdempotent | StringUtils.h:64-72 | replacing again in a reached result changes nothing |
| StringUtils.ReplaceAllTerminates | StringUtils.h:66-71 | with a non-empty pattern and a shorter replacement, the loop ends within as many rounds as the string has characters |
| StringUtils.ReplaceAllEmptyPatternDiverges | StringUtils.h:66-71 | with an empty pattern the loop never ends |
| FileUtils.SplitExt | FileUtils.h:57-67 | base + ext is the name; ext is empty exactly when the name has no dot, and otherwise starts at the last dot |
| FileUtilsProperties.SplitExtExamples | FileUtils.h:61-66 | "archive.tar.gz" splits at the last dot; "README" gives ("README", "") |
| FileUtils.ParentDir | FileUtils.h:128-138 | `parentDir` is a prefix of the path without its trailing separator; it is empty or ends in '/'; no separator follows it |
| FileUtilsProperties.ParentDirExamples | FileUtils.h:128-138 | "a/b/" and "a/b" give "a/", "x" gives "", "/" gives "/" |
| FileUtils.WithSep | FileUtils.h:153 | the directory path gets exactly one separator appended when it does not end in one |
| FileUtils.ListEntries | FileUtils.h:183-199 | a name is listed exactly when some entry carries it, it does not start with '.', and it is not a directory unless directories are reported |
| FileUtils.ListDir | FileUtils.h:146-203 | nothing is listed for a path that is not a directory, and no listed name starts with '.'; ListDirIff gives the exact contents |
| FileUtilsProperties.ListDirIff | FileUtils.h:145-203 | `listDir(dir)` reports exactly the names `n`, not starting with '.', for which `dir + n` exists and is not a directory; nothing when `dir` is not a directory |
| FileUtils.Walk | FileUtils.h:207-266 | every call gets a root that extends the walked root and ends in '/'; no directory call is made unless directories are reported |
| FileUtilsProperties.WalkEntriesIff | FileUtils.h:243-264 | the calls made for a directory's entries are exactly those of the entry-by-entry reference, recursing into `root + name + '/'` |
| FileUtilsProperties.WalkIff | FileUtils.h:207-266 | `walk(root)` makes exactly the reference's calls for the directory `root` names, and none when it names no directory |
| FileUtilsProperties.WalkEntriesNoDuplicates | FileUtils.h:243-264 | in a tree with unique entry names, no call is made twice |
| FileUtilsProperties.WalkExactlyOnce | FileUtils.h:207-266 | `walk` makes each of its calls exactly once |
| FileUtilsProperties.WalkNamesValid | FileUtils.h:247-260 | every call names an entry: no separator, not "", "." or "..", and not starting with '.' |
| FileSystemProperties.RemoveInDir | FileUtils.h:117-124 | `rm(dir + name)` succeeds exactly on a regular file; afterwards the name is gone and the directory is intact |
| FileSystemProperties.RemoveKeepsSibling | FileUtils.h:117-124 | `rm` of one name leaves every other name of the directory as it was |
| FileSystem.Stat | FileUtils.h:82-104 | `stat` of the empty path fails; StatDirSyntax states what a path written as a directory names |
| FileSystemProperties.StatDirSyntax | FileUtils.h:94-104 | a path written as a directory (a trailing '/', or a last component "." or "..") names nothing but a directory |
| FileSystem.Remove | FileUtils.h:117-124 | `unlink` succeeds only on a regular file; RemoveInDir states the converse and what is left |
| FileSystem.MakeDir | FileUtils.h:107-114 | `mkdir` succeeds only where nothing exists yet; MakeDirInDir states the converse and what it creates |
| FileSystemProperties.MakeDirInDir | FileUtils.h:107-114 | `mkDir(dir + name)` succeeds exactly when nothing of that name is in `dir`; the new entry is an empty directory and every other entry of `dir` is unchanged |
| FileSystem.WriteFile | QtTool.cpp:153-166 | what a launched generator leaves at its `-o` path; its effect is stated by WriteInDir and WriteKeepsSibling |
| FileSystemProperties.WriteInDir | QtTool.cpp:153-166 | writing `dir + name` leaves a regular file with the given time and lines there, unless a directory of that name is in the way, in which case nothing changes; `dir` stays a directory |
| FileSystemProperties.WriteKeepsSibling | QtTool.cpp:153-166 | writing `dir + name` leaves every other entry of `dir` as it was |
| QtTool.Init | QtTool.h:36-42 | the executable path is `exePath(qtBinPath)`, wrapped in double quotes exactly when it contains a space; dropping the quotes gives it back |
| QtTool.InitIdempotent | QtTool.h:37 | `init` recomputes from its argument, so repeating it changes nothing |
| QtTool.SetCmdOpts | QtTool.h:52-54 | the options are stored verbatim and nothing else changes |
| QtTool.NeedsToRun | QtTool.h:48 | every variant runs whenever the default rule says so, and none runs without a regular input file |
| QtToolProperties.OnlyRccOverrides | QtTool.h:65-95 | moc and uic use the default rule; rcc's override only adds reasons to run |
| QtTool.DefaultNeedsToRun | QtTool.cpp:51-87 | a run is needed exactly when the input is a regular file and the output is either not a regular file or strictly older |
| QtToolProperties.EqualTimesUpToDate | QtTool.cpp:81-85 | with both files present, the rule is a strict comparison of modification times; equal times count as up to date |
| QtToolProperties.DefaultNeedsToRunCases | QtTool.cpp:51-58 | no input file means no run; an input file without an output file means a run |
| QtToolProperties.DefaultNeedsToRunMonotone | QtTool.cpp:85 | a newer input or an older output can only turn "up to date" into "must run" |
| QtTool.CommandLine | QtTool.cpp:97-102 | the command starts with the executable path and ends with " -o ", the output and the input |
| QtToolProperties.CommandLineShape | QtTool.cpp:97-102 | the command is exactly the executable path, then " " and the options if there are any, then " -o ", the output and the input: each piece sits at its place and the length is the sum of theirs |
| QtTool.RunIfNeeded | QtTool.cpp:93-173 | the tool ran exactly when `needsToRun` said so, and a tool that did not run leaves the filesystem alone; it fails with "cannot start process" exactly when a run was needed and the launch could not start |
| QtToolProperties.RunIfNeededFreshIgnoresLaunch | QtTool.cpp:93-173 | when no run is needed nothing is launched: the result is "did not run" with the filesystem unchanged, whatever launching would do |
| QtToolProperties.RunIfNeededUsesOnlyItsCommand | QtTool.cpp:93-173 | the outcome depends on the launch only through the one command line it composes |
| QtTool.HasMarkerLine | QtTool.cpp:201-211 | the line loop finds Q_OBJECT exactly when some line contains it |
| QtTool.IsFileInput | QtTool.cpp:189-287 | a moc input is a regular file; a uic input ends in ".ui" and an rcc input in ".qrc"; MocInputIff and UicRccIgnoreContents state the exact tests |
| QtToolProperties.MocInputIff | QtTool.cpp:189-212 | moc accepts exactly a path passing `endsWith` for one of .h/.hpp/.hh/.hxx that is a readable file with a line containing Q_OBJECT |
| QtToolProperties.DottedDirectoryHidesHeader | QtTool.cpp:191-194 | "src/my.http/w.h" has the suffix ".h" but is never a moc input |
| QtToolProperties.UicRccIgnoreContents | QtTool.cpp:242-287 | uic and rcc decide from the path alone, and accept only paths ending in ".ui" and ".qrc" |
| QtTool.OutFilename | QtTool.cpp:216-225 | the output name starts with the tool's prefix, ends with its suffix, and holds the `splitExt` base name in between; so the name determines the base (see OutFilenameInjective) |
| QtToolProperties.OutFilenameExamples | QtTool.cpp:252-300 | "dialog.ui" gives "ui_dialog.h" and "res.qrc" gives "rc_res.cc" |
| QtToolProperties.SameBaseCollision | QtTool.cpp:216-225 | "w.h" and "w.hpp" both give "mo_w.cc" |
| QtToolProperties.OutFilenameInjective | QtTool.cpp:216-300 | an output name determines the tool and the base name it came from |
| QtToolProperties.OutFilenameValid | main.cpp:199-200 | an output name made from an entry name is an entry name, so the output lies directly in the output directory |
| QtTool.ManifestEntry | QtTool.cpp:317-323 | a line names a resource only if it holds `<file>`; the name is non-empty, holds no `</file>`, and appears tagged in the line |
| QtToolProperties.ManifestEntryReadsTaggedName | QtTool.cpp:317-323 | a line `pre<file>fn</file>post`, where no `<file>` starts inside `pre` and no `</file>` inside `fn` (so `pre` may be `<qresource>`), names exactly `fn`, untrimmed, and nothing when `fn` is empty |
| QtToolProperties.ManifestEntryInQresource | QtTool.cpp:317-323 | the one-line manifest `<qresource><file>a.png</file></qresource>` names "a.png" |
| QtToolProperties.ManifestEntryUnclosed | QtTool.cpp:317-321 | when the first `<file>` of a line is never followed by `</file>`, the line names nothing |
| QtTool.ScanManifest | QtTool.cpp:314-330 | the scan succeeds exactly when some line names a resource for which the default rule says run |
| QtTool.RccNeedsToRun | QtTool.cpp:305-334 | the default rule on the manifest forces a run, and a manifest that is not a regular file never does; RccNeedsToRunIff states the exact rule |
| QtToolProperties.RccNeedsToRunIff | QtTool.cpp:305-334 | rcc must run exactly when the default rule holds for the manifest or for `parentDir(manifest) + name` of some named resource |
| QtToolProperties.MissingResourceNeverForces | QtTool.cpp:324-325 | resources that are not regular files never force a run |
| QtToolProperties.RccUpToDate | QtTool.cpp:305-334 | an output no older than the manifest and every existing resource is up to date |
| Report.NatToString | main.cpp:176-179 | a count prints as decimal digits with no leading zero |
| Report.ParseNatToString | main.cpp:176-179 | the printed digits read back as the count |
| ReportProperties.SeparatorShape | main.cpp:150 | the separator is 79 '-' characters |
| ReportProperties.SectionShape | main.cpp:155-174 | a section lists its items in order behind their tag and ends with the separator; an empty list prints nothing |
| Report.Lines | main.cpp:149-187 | the report has at least the header and the four counts; it ends with the deleted count when no file failed and with the last error line otherwise; LinesParts gives the full layout |
| ReportProperties.LinesParts | main.cpp:150-187 | the report is the header naming the input directory, the generated, updated and deleted sections, the four counts, and the error block |
| ReportProperties.LinesListFiles | main.cpp:150-174 | line by line: the header, then every generated, updated and deleted file at its place |
| ReportProperties.LinesCounts | main.cpp:176-179 | the four counts always follow, in the order up-to-date, generated, updated, deleted |
| ReportProperties.LinesErrorBlock | main.cpp:181-187 | the report ends with the counts when nothing failed; otherwise a separator, the heading and every error line follow |
| ReportProperties.CountLineReadsBack | main.cpp:176-179 | the digits at the head of a count line read back as the count, followed by the line's text |
| Driver.Tools | main.cpp:111-117 | the tools are moc, uic and rcc in this order, each with its own options, and each already initialised with the Qt bin path (its executable path is what `init(qtBinPath)` makes) |
| Driver.FirstMatch | main.cpp:195-197 | the chosen tool accepts the file and no earlier tool does |
| DriverProperties.ToolChoice | main.cpp:195-224 | moc is chosen exactly when it accepts the file, uic when it does and moc does not, rcc when only it does; none otherwise |
| Driver.Dispatch | main.cpp:191-226 | one file adds at most one expected output and keeps those already there; DispatchOneBucket and DispatchUnmatched state which list grows |
| Driver.DispatchAll | main.cpp:133 | a walk over k files adds at most k expected outputs and keeps those already there |
| DriverProperties.DispatchUnmatched | main.cpp:195-225 | a file no tool accepts changes nothing |
| DriverProperties.DispatchOneBucket | main.cpp:199-223 | an accepted file adds one entry to exactly one list (updated, generated, untouched or errors, as the run and the prior output decide); the output `outD + getOutFilename(name)` is expected only when the tool did not fail |
| DriverProperties.DispatchAllPartition | main.cpp:191-226 | over the whole walk, every expected output sits in exactly one of generated, updated and untouched, and every list only grows |
| DriverProperties.DispatchExpectedStep | main.cpp:199-216 | one call of the action adds to the expected outputs at most `outD + getOutFilename(filename)` for the file it visits, and removes nothing |
| DriverProperties.DispatchAllOutputs | main.cpp:191-226 | over the whole walk, every expected output is `outD` plus the output name, for one of the tools, of some visited file |
| DriverProperties.QuietWhenFresh | main.cpp:202-216 | when every output is up to date, a walk changes no file, generates, updates and fails nothing, and expects exactly the untouched outputs |
| Driver.Reconcile | main.cpp:136-146 | every deleted path was a prior output and is not expected |
| RunProperties.ReconcileInDir | main.cpp:136-146 | a prior output is deleted exactly when it is not expected and is a regular file; deleted files are gone; nothing else in the output directory changes |
| RunProperties.DispatchKeepsOthers | main.cpp:199-216 | one file's dispatch can only change its own output, which it then expects |
| RunProperties.DispatchAllKeepsOthers | main.cpp:133 | during the walk only expected outputs change in the output directory |
| Driver.Run | main.cpp:119-187 | the run fails, with "could not create the output directory", exactly when the output directory is missing and cannot be created; otherwise both directories are the configured ones with a trailing separator, and the report is built from the run's own lists and deletions |
| RunProperties.OldFilesExact | main.cpp:125-128 | the prior outputs are exactly the paths `outD + n` of the regular files `n`, not starting with '.', directly inside the output directory |
| RunProperties.RunCleansUp | main.cpp:100-187 | the cleaned directory is the configured output directory with a trailing separator; the prior outputs are the visible regular files of that directory; one is deleted exactly when it is not expected; deleted files are gone; nothing else in the output directory changes in the clean-up; the expected outputs are partitioned; the report lists the run's own lists and deletions |

## Left out

- `guessQtBinPath` (main.cpp:52-83): it probes the environment and opens files. The Qt bin path is part of `Config`.
- Command-line parsing and `usage` in `main` (main.cpp:243-319): plumbing. The directories and options arrive in `Config`.
- Process spawning (`popen`, `CreateProcess`), forwarding of the child's output, and waiting (QtTool.cpp:104-168): replaced by the launch oracle.
- The Win32 truncation of the command line to 511 characters: a Windows-only branch.
- The `.exe` names of the Windows tools: a Windows-only branch.
- All `_WIN32` branches of `listDir`, `walk` and `needsToRun`: only the POSIX branches are modelled.
- `stat`/`GetFileTime` plumbing: modification times are plain integers in the tree.
- `exists`, which the core never calls.
- `readdir` order, symbolic links and cycles: entries come in the tree's order, and the tree has no links.
- The working directory: it is taken to be the top of the tree, so a relative path resolves like the absolute one (`src` and `/src` are one directory), and `..` stops at the top.
- Console output (`cout`, `cerr`): the report is a sequence of lines.
- The diagnostic printed for a failed deletion: dropped.
- The walk is taken as a snapshot of the tree at its start. Generators write only their `-o` file, so they can change what the walk sees only when the output directory lies inside the input tree. That interleaving is not modelled.
- RunProperties.DispatchKeepsOthers: relies on a generator writing nothing but its `-o` file. A generator that touches other files is not modelled.
- Access failures are not modelled: permissions, read-only file systems and busy files. `unlink`, `mkdir`, `ifstream` and the generator's write fail only when the path does not name the right kind of node. So the "could not delete" branch (main.cpp:142-144) is reached only for a path that is no longer a regular file.
- FileSystemProperties.RemoveInDir: "succeeds exactly on a regular file" holds because access failures are not modelled.
- RunProperties.ReconcileInDir: "deleted exactly when not expected and a regular file" holds because access failures are not modelled.
- RunProperties.RunCleansUp: "deleted exactly when not expected" holds because access failures are not modelled.
- StringUtils.ReplaceAll: runs on fuel, because the source loop need not terminate. `None` stands for "still looping", and the contract speaks only of results the loop reaches.
- StringUtils.ReplaceAll: no closed form of the result is given for several rounds. A replacement can create a new occurrence across its edges, so the result is not "every occurrence replaced"; the contract and lemmas state the one-round step, the unchanged case, the single-replacement case and the length after k rounds.
- QtToolProperties.MocInputIff: "a readable file" means a regular file; a header that exists but cannot be read is not modelled.
- RunProperties.RunCleansUp: requires the output directory to exist before the run and the tree to be well formed. When `run` has to create the directory, only `Driver.Run`'s contract (failure exactly when creation is impossible) covers it.
- DriverProperties.QuietWhenFresh: states a quiet walk only when every visited file is up to date beforehand. Whether a second run is quiet depends on the generators writing outputs newer than their inputs, which this code does not decide.
