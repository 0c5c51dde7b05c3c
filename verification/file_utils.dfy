/**
 * The path helpers and directory traversals of FileUtils.h (`fu::`), POSIX
 * branches, over the filesystem value of module FileSystem.
 */
module FileUtils {
  import opened Wrappers
  import opened StringUtils
  import opened FileSystem

  /**
   * `splitExt`: cuts a file name at its last '.', the extension keeping the dot;
   * a name without a dot has an empty extension.
   */
  function SplitExt(filename: string): (r: (string, string))
    ensures r.0 + r.1 == filename
    ensures r.1 == [] <==> '.' !in filename
    ensures r.1 != [] ==> r.1[0] == '.' && '.' !in r.1[1..]
  {
    match RFind(filename, '.', None)
    case None => (filename, [])
    case Some(pos) =>
      assert forall j :: pos < j < |filename| ==> filename[j] != '.';
      (filename[..pos], filename[pos..])
  }

  /**
   * `parentDir`: the prefix of `path` up to and including the last separator,
   * where one trailing separator is disregarded; "" when there is none. For "/"
   * the start position `size()-2` wraps to npos, so the whole path is searched.
   */
  function ParentDir(path: string): (r: string)
    requires |path| > 0
    ensures var body := if |path| >= 2 && Last(path) == PathSep then path[..|path| - 1] else path;
      && IsPrefix(r, body)
      && (r == [] || Last(r) == PathSep)
      && PathSep !in body[|r|..]
  {
    var startPos: Option<nat> := if Last(path) == PathSep && |path| >= 2 then Some(|path| - 2) else None;
    match RFind(path, PathSep, startPos)
    case None => []
    case Some(pos) => path[..pos + 1]
  }

  /** `if (s.back() != pathSep) s.push_back(pathSep)`, as `run`, `listDir` and `walk` do to a directory path. */
  function WithSep(s: string): (r: string)
    requires |s| > 0
    ensures |r| > 0 && Last(r) == PathSep
    ensures r == s || r == s + [PathSep]
    ensures Last(s) == PathSep <==> r == s
  {
    if Last(s) != PathSep then s + [PathSep] else s
  }

  /** Names starting with '.' are skipped by `listDir` and `walk`. */
  predicate Hidden(name: string) {
    |name| > 0 && name[0] == '.'
  }

  /** The names `listDir` reports from one directory's entries, in readdir order. */
  function ListEntries(entries: seq<Entry>, reportDirs: bool): (r: seq<string>)
    ensures forall n :: n in r <==>
      exists i :: 0 <= i < |entries| && entries[i].name == n && !Hidden(n) && (reportDirs || !entries[i].node.Dir?)
    ensures |r| <= |entries|
  {
    if entries == [] then []
    else
      var e := entries[0];
      var rest := ListEntries(entries[1..], reportDirs);
      assert forall i :: 1 <= i < |entries| ==> entries[i] == entries[1..][i - 1];
      if !Hidden(e.name) && (reportDirs || !e.node.Dir?) then [e.name] + rest else rest
  }

  /**
   * `listDir`: the non-hidden names directly inside `dir` (directories only when
   * `reportDirs`); nothing when `dir` cannot be opened as a directory.
   */
  function ListDir(fs: Node, dir: string, reportDirs: bool): (r: seq<string>)
    requires |dir| > 0
    ensures !IsDir(fs, WithSep(dir)) ==> r == []
    ensures forall n :: n in r ==> !Hidden(n)
  {
    match Stat(fs, WithSep(dir))
    case Some(Dir(entries)) => ListEntries(entries, reportDirs)
    case _ => []
  }

  /** One call `action(root, name, isDir)` made by `walk`. */
  datatype Visit = Visit(root: string, name: string, isDir: bool)

  /** What every call made by `walk` from `root` satisfies. */
  predicate WalkedUnder(root: string, v: Visit, reportDirs: bool) {
    && IsPrefix(root, v.root)
    && |v.root| > 0 && Last(v.root) == PathSep
    && (reportDirs || !v.isDir)
  }

  lemma PrefixTransitive(a: string, b: string, c: string)
    requires IsPrefix(a, b) && IsPrefix(b, c)
    ensures IsPrefix(a, c)
  {
    assert c[..|a|] == c[..|b|][..|a|];
  }

  /**
   * The calls `walk` makes for the entries of the directory `root`: a hidden entry is
   * skipped with everything below it; a directory is reported (only when `reportDirs`)
   * and then walked as `root + name`, which gets its own separator; any other entry
   * is reported as a file.
   */
  function WalkEntries(root: string, entries: seq<Entry>, reportDirs: bool): (r: seq<Visit>)
    requires |root| > 0 && Last(root) == PathSep
    ensures forall v :: v in r ==> WalkedUnder(root, v, reportDirs)
    decreases entries
  {
    if entries == [] then []
    else
      var e := entries[0];
      var rest := WalkEntries(root, entries[1..], reportDirs);
      if Hidden(e.name) then rest
      else if e.node.Dir? then
        var sub := WithSep(root + e.name);
        var below := WalkEntries(sub, e.node.entries, reportDirs);
        assert IsPrefix(root, sub);
        forall v | v in below ensures WalkedUnder(root, v, reportDirs) {
          PrefixTransitive(root, sub, v.root);
        }
        (if reportDirs then [Visit(root, e.name, true)] else []) + below + rest
      else [Visit(root, e.name, false)] + rest
  }

  /** `walk`: every call made while walking the tree under `root`; none if it is not a directory. */
  function Walk(fs: Node, root: string, reportDirs: bool): (r: seq<Visit>)
    requires |root| > 0
    ensures forall v :: v in r ==> WalkedUnder(WithSep(root), v, reportDirs)
  {
    var top := WithSep(root);
    match Stat(fs, top)
    case Some(Dir(entries)) => WalkEntries(top, entries, reportDirs)
    case _ => []
  }
}
