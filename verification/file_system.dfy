/**
 * The filesystem the driver works on, as an immutable value.
 *
 * The POSIX primitives wrapped by FileUtils.h (`stat`-based `isFile`/`isDir`,
 * `mkdir`, `unlink`) and the reading and writing done by the tools become
 * pure queries and updates of a directory tree. Paths are resolved as a POSIX
 * system without symbolic links resolves them when the working directory is
 * the root: components are separated by '/', empty and "." components stay in
 * place, ".." goes to the parent (and stays at the top), and a path written
 * with a trailing '/' must name a directory. Absolute and relative paths
 * resolve from the same top directory, so `src` and `/src` are one directory.
 */
module FileSystem {
  import opened Wrappers
  import opened StringUtils

  /** `fu::pathSep` on POSIX. */
  const PathSep: char := '/'

  /** A regular file (its modification time and its lines) or a directory (its entries, in readdir order). */
  datatype Node = File(mtime: int, lines: seq<string>) | Dir(entries: seq<Entry>)

  datatype Entry = Entry(name: string, node: Node)

  /** Path components that never name an entry: they stay in place or go up. */
  predicate DotName(c: string) {
    c == "" || c == "." || c == ".."
  }

  /** A name a directory entry can carry. */
  predicate ValidName(n: string) {
    !DotName(n) && PathSep !in n
  }

  /** No two entries of one directory share a name. */
  ghost predicate UniqueNames(entries: seq<Entry>) {
    forall i, j :: 0 <= i < j < |entries| ==> entries[i].name != entries[j].name
  }

  /** Every entry of the tree carries a valid name, unique within its directory. */
  ghost predicate WellFormed(node: Node) {
    node.Dir? ==>
      && UniqueNames(node.entries)
      && forall i :: 0 <= i < |node.entries| ==> ValidName(node.entries[i].name) && WellFormed(node.entries[i].node)
  }

  /** The index of the first entry called `name`. */
  function ChildIndex(entries: seq<Entry>, name: string): (r: Option<nat>)
    ensures r.Some? ==> r.value < |entries| && entries[r.value].name == name
    ensures r.Some? ==> forall j :: 0 <= j < r.value ==> entries[j].name != name
    ensures r.None? ==> forall j :: 0 <= j < |entries| ==> entries[j].name != name
  {
    if entries == [] then None
    else if entries[0].name == name then Some(0)
    else match ChildIndex(entries[1..], name)
      case None => None
      case Some(i) => Some(i + 1)
  }

  /** The node reached from `root` by following the entry names of `at` (a canonical path). */
  function Locate(root: Node, at: seq<string>): Option<Node>
    decreases |at|
  {
    if at == [] then Some(root)
    else match root
      case File(_, _) => None
      case Dir(entries) =>
        match ChildIndex(entries, at[0])
        case None => None
        case Some(i) => Locate(entries[i].node, at[1..])
  }

  predicate IsDirAt(root: Node, at: seq<string>) {
    Locate(root, at).Some? && Locate(root, at).value.Dir?
  }

  function Up(at: seq<string>): seq<string> {
    if at == [] then [] else at[..|at| - 1]
  }

  /**
   * Resolves the components `comps`, each of which must be a directory, starting
   * from the directory at canonical path `at`; the result is the canonical path reached.
   */
  function ResolveDir(root: Node, at: seq<string>, comps: seq<string>): (r: Option<seq<string>>)
    ensures r.Some? ==> IsDirAt(root, r.value)
    decreases |comps|
  {
    if comps == [] then (if IsDirAt(root, at) then Some(at) else None)
    else
      var c := comps[0];
      if c == "" || c == "." then ResolveDir(root, at, comps[1..])
      else if c == ".." then ResolveDir(root, Up(at), comps[1..])
      else if IsDirAt(root, at + [c]) then ResolveDir(root, at + [c], comps[1..])
      else None
  }

  function Last<T>(s: seq<T>): T
    requires |s| > 0
  {
    s[|s| - 1]
  }

  /** A path that can only name a directory: it ends in '/' or in a "." or ".." component. */
  predicate DirSyntax(path: string) {
    var comps := Split(path, PathSep);
    |comps| == 0 || Last(path) == PathSep || DotName(Last(comps))
  }

  /** For a path naming an entry, the canonical path of its directory and its own name. */
  function Place(root: Node, path: string): (r: Option<(seq<string>, string)>)
    ensures r.Some? ==> IsDirAt(root, r.value.0) && ValidName(r.value.1)
  {
    if DirSyntax(path) then None
    else
      var comps := Split(path, PathSep);
      match ResolveDir(root, [], comps[..|comps| - 1])
      case None => None
      case Some(dir) => Some((dir, Last(comps)))
  }

  /** `stat`: what `path` refers to, if anything. */
  function Stat(root: Node, path: string): (r: Option<Node>)
    ensures path == "" ==> r.None?
  {
    if path == "" then None
    else if DirSyntax(path) then
      match ResolveDir(root, [], Split(path, PathSep))
      case None => None
      case Some(at) => Locate(root, at)
    else
      match Place(root, path)
      case None => None
      case Some((dir, name)) => Locate(root, dir + [name])
  }

  /** `fu::isFile`: `stat` succeeds on a regular file. */
  predicate IsFile(root: Node, path: string) {
    Stat(root, path).Some? && Stat(root, path).value.File?
  }

  /** `fu::isDir`: `stat` succeeds on a directory. */
  predicate IsDir(root: Node, path: string) {
    Stat(root, path).Some? && Stat(root, path).value.Dir?
  }

  /** `st_mtime` of a regular file. */
  function MTime(root: Node, path: string): int
    requires IsFile(root, path)
  {
    Stat(root, path).value.mtime
  }

  /** The lines `getline` reads from an `ifstream` on `path`: none unless it is a readable regular file. */
  function ReadLines(root: Node, path: string): (r: seq<string>)
    ensures !IsFile(root, path) ==> r == []
  {
    if IsFile(root, path) then Stat(root, path).value.lines else []
  }

  /** A change to one directory's entry list. */
  datatype Change = Drop(name: string) | Put(entry: Entry)

  /** Drops the first entry called `name`, or puts `entry` in place of the first one of its name (at the end if there is none). */
  function ApplyChange(entries: seq<Entry>, c: Change): seq<Entry>
  {
    match c
    case Drop(name) =>
      (match ChildIndex(entries, name)
       case None => entries
       case Some(i) => entries[..i] + entries[i + 1..])
    case Put(entry) =>
      (match ChildIndex(entries, entry.name)
       case None => entries + [entry]
       case Some(i) => entries[i := entry])
  }

  /** Applies `c` to the directory at canonical path `at`, rebuilding the directories above it. */
  function ChangeAt(root: Node, at: seq<string>, c: Change): Node
    decreases |at|
  {
    match root
    case File(_, _) => root
    case Dir(entries) =>
      if at == [] then Dir(ApplyChange(entries, c))
      else match ChildIndex(entries, at[0])
        case None => root
        case Some(i) =>
          Dir(entries[i := Entry(entries[i].name, ChangeAt(entries[i].node, at[1..], c))])
  }

  /** `fu::rm` (`unlink`): removes a regular file; fails on a directory or a path naming nothing. */
  function Remove(root: Node, path: string): (r: Option<Node>)
    ensures r.Some? ==> IsFile(root, path)
  {
    match Place(root, path)
    case None => None
    case Some((dir, name)) =>
      if Locate(root, dir + [name]).Some? && Locate(root, dir + [name]).value.File?
      then Some(ChangeAt(root, dir, Drop(name)))
      else None
  }

  /** `path` without the separators it ends with. */
  function StripTrailingSeps(path: string): (r: string)
    ensures IsPrefix(r, path)
    ensures r == [] || Last(r) != PathSep
  {
    if path != [] && Last(path) == PathSep then StripTrailingSeps(path[..|path| - 1]) else path
  }

  /** `fu::mkDir` (`mkdir`): creates an empty directory whose parent exists and whose name is free. */
  function MakeDir(root: Node, path: string): (r: Option<Node>)
    ensures r.Some? ==> Stat(root, StripTrailingSeps(path)).None?
  {
    var p := StripTrailingSeps(path);
    if p == [] || DirSyntax(p) then None
    else
      match Place(root, p)
      case None => None
      case Some((dir, name)) =>
        if Locate(root, dir + [name]).Some? then None
        else Some(ChangeAt(root, dir, Put(Entry(name, Dir([])))))
  }

  /**
   * What a generator leaves at `path` when it writes its output: a regular file with
   * the given time and lines, replacing a previous regular file. Nothing happens when
   * `path` cannot be opened for writing (its directory is missing or it is a directory).
   */
  function WriteFile(root: Node, path: string, mtime: int, lines: seq<string>): Node
  {
    match Place(root, path)
    case None => root
    case Some((dir, name)) =>
      if Locate(root, dir + [name]).Some? && Locate(root, dir + [name]).value.Dir? then root
      else ChangeAt(root, dir, Put(Entry(name, File(mtime, lines))))
  }
}
