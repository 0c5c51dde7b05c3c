/**
 * How the filesystem's updates behave on paths of the form `dir + name`, the only
 * form the driver removes and writes: `dir` names a directory and ends with the
 * separator, and `name` is an entry name.
 */
module FileSystemProperties {
  import opened Wrappers
  import opened StringUtils
  import opened FileSystem

  /** The first occurrence of `c` in `a` is also its first occurrence in `a + b`. */
  lemma IndexOfAppend(a: string, b: string, c: char)
    requires IndexOf(a, c).Some?
    ensures IndexOf(a + b, c) == IndexOf(a, c)
  {
    var i := IndexOf(a, c).value;
    assert (a + b)[i] == c;
    assert (a + b)[..i] == a[..i];
  }

  /** Appending a name to a path ending in the separator appends one component. */
  lemma {:induction false} SplitAppend(a: string, b: string)
    requires |a| > 0 && Last(a) == PathSep && |b| > 0 && PathSep !in b
    ensures Split(a + b, PathSep) == Split(a, PathSep) + [b]
    decreases |a|
  {
    assert a[|a| - 1] == PathSep;
    var i := IndexOf(a, PathSep).value;
    var rest := a[i + 1..];
    SplitFront(a, b, i);
    SplitStep(a, PathSep, i);
    if rest == [] {
      assert rest + b == b;
      assert Split(b, PathSep) == [b];
    } else {
      assert Last(rest) == PathSep;
      SplitAppend(rest, b);
      assert [a[..i]] + (Split(rest, PathSep) + [b]) == [a[..i]] + Split(rest, PathSep) + [b];
    }
  }

  /** The first separator of `a` is also the first of `a + b`, so the first piece of both is the same. */
  lemma SplitFront(a: string, b: string, i: nat)
    requires IndexOf(a, PathSep) == Some(i)
    ensures Split(a + b, PathSep) == [a[..i]] + Split(a[i + 1..] + b, PathSep)
  {
    IndexOfAppend(a, b, PathSep);
    assert (a + b)[..i] == a[..i];
    assert (a + b)[i + 1..] == a[i + 1..] + b;
    SplitStep(a + b, PathSep, i);
  }

  /** The canonical path of the directory a path ending in the separator names. */
  function DirAt(fs: Node, dir: string): (r: Option<seq<string>>)
    ensures r.Some? ==> IsDirAt(fs, r.value)
  {
    ResolveDir(fs, [], Split(dir, PathSep))
  }

  /** A path written as a directory (a trailing '/', or a last component "." or "..") names nothing but a directory. */
  lemma StatDirSyntax(fs: Node, path: string)
    requires DirSyntax(path)
    ensures Stat(fs, path).Some? ==> Stat(fs, path).value.Dir?
  {
  }

  /** A path ending in the separator is a directory exactly when its components resolve. */
  lemma IsDirSyntax(fs: Node, dir: string)
    requires |dir| > 0 && Last(dir) == PathSep
    ensures IsDir(fs, dir) <==> DirAt(fs, dir).Some?
    ensures DirAt(fs, dir).Some? ==> Stat(fs, dir) == Locate(fs, DirAt(fs, dir).value)
  {
    assert DirSyntax(dir);
  }

  /** `dir + name` is looked up as the entry `name` of the directory `dir`. */
  lemma PlaceInDir(fs: Node, dir: string, name: string)
    requires |dir| > 0 && Last(dir) == PathSep && ValidName(name)
    ensures Place(fs, dir + name) == match DirAt(fs, dir) case None => None case Some(d) => Some((d, name))
    ensures Stat(fs, dir + name) == match DirAt(fs, dir) case None => None case Some(d) => Locate(fs, d + [name])
  {
    var path := dir + name;
    SplitAppend(dir, name);
    var comps := Split(path, PathSep);
    assert comps == Split(dir, PathSep) + [name];
    assert Last(comps) == name;
    assert Last(path) == Last(name);
    assert !DirSyntax(path);
    assert comps[..|comps| - 1] == Split(dir, PathSep);
  }

  /** The node of the first entry called `name`. */
  function Child(entries: seq<Entry>, name: string): (r: Option<Node>)
    ensures r.None? <==> forall j :: 0 <= j < |entries| ==> entries[j].name != name
  {
    match ChildIndex(entries, name)
    case None => None
    case Some(i) => Some(entries[i].node)
  }

  /** One step of a lookup. */
  lemma LocateStep(entries: seq<Entry>, x: string, q: seq<string>)
    ensures Locate(Dir(entries), [x] + q) == match Child(entries, x) case None => None case Some(n) => Locate(n, q)
  {
    assert ([x] + q)[0] == x && ([x] + q)[1..] == q;
  }

  /** The name of the entry a change is about. */
  function ChangeName(c: Change): string {
    match c
    case Drop(name) => name
    case Put(entry) => entry.name
  }

  /** The first entry called `x` is found by where it is. */
  lemma ChildIndexIs(entries: seq<Entry>, x: string, k: nat)
    requires k < |entries| && entries[k].name == x && forall j :: 0 <= j < k ==> entries[j].name != x
    ensures ChildIndex(entries, x) == Some(k)
  {
  }

  /** Lookups by name only see the names. */
  lemma ChildIndexSameNames(e1: seq<Entry>, e2: seq<Entry>, x: string)
    requires |e1| == |e2| && forall i :: 0 <= i < |e1| ==> e1[i].name == e2[i].name
    ensures ChildIndex(e1, x) == ChildIndex(e2, x)
  {
    match ChildIndex(e1, x)
    case None =>
    case Some(k) => ChildIndexIs(e2, x, k);
  }

  /** A change leaves every other name's entry alone. */
  lemma ChildOtherName(entries: seq<Entry>, c: Change, x: string)
    requires x != ChangeName(c)
    ensures Child(ApplyChange(entries, c), x) == Child(entries, x)
  {
    match c
    case Drop(n) =>
      match ChildIndex(entries, n) {
        case None =>
        case Some(i) => ChildRemoveOther(entries, i, x);
      }
    case Put(entry) =>
      match ChildIndex(entries, entry.name) {
        case None =>
          match ChildIndex(entries, x) {
            case None =>
            case Some(k) => ChildIndexIs(entries + [entry], x, k);
          }
        case Some(i) =>
          ChildIndexSameNames(entries, entries[i := entry], x);
      }
  }

  /** Removing the entry at `i` does not affect the lookup of another name. */
  lemma ChildRemoveOther(entries: seq<Entry>, i: nat, x: string)
    requires i < |entries| && entries[i].name != x
    ensures Child(entries[..i] + entries[i + 1..], x) == Child(entries, x)
  {
    var e' := entries[..i] + entries[i + 1..];
    match ChildIndex(entries, x) {
      case None =>
        assert forall j :: 0 <= j < |e'| ==> e'[j] == (if j < i then entries[j] else entries[j + 1]);
      case Some(k) =>
        if k < i {
          assert e'[k] == entries[k];
          ChildIndexIs(e', x, k);
        } else {
          assert e'[k - 1] == entries[k];
          ChildIndexIs(e', x, k - 1);
        }
    }
  }

  /** With unique names, a change leaves exactly what it says under its own name. */
  lemma ChildChangedName(entries: seq<Entry>, c: Change)
    requires UniqueNames(entries)
    ensures Child(ApplyChange(entries, c), ChangeName(c)) == match c case Drop(_) => None case Put(e) => Some(e.node)
  {
    var e' := ApplyChange(entries, c);
    match c
    case Drop(n) =>
      match ChildIndex(entries, n) {
        case None =>
        case Some(i) =>
          assert forall j :: 0 <= j < |e'| ==> e'[j] == (if j < i then entries[j] else entries[j + 1]);
      }
    case Put(entry) =>
      match ChildIndex(entries, entry.name) {
        case None => ChildIndexIs(e', entry.name, |entries|);
        case Some(i) => ChildIndexSameNames(entries, e', entry.name);
      }
  }

  /** A change keeps the names of a directory unique, and valid when the entry put is. */
  lemma ApplyChangeKeepsNames(entries: seq<Entry>, c: Change)
    requires UniqueNames(entries)
    ensures UniqueNames(ApplyChange(entries, c))
    ensures forall j :: 0 <= j < |ApplyChange(entries, c)| ==>
      ApplyChange(entries, c)[j] in entries || (c.Put? && ApplyChange(entries, c)[j] == c.entry)
  {
    var e' := ApplyChange(entries, c);
    match c
    case Drop(n) =>
      match ChildIndex(entries, n) {
        case None =>
        case Some(i) =>
          assert forall j :: 0 <= j < |e'| ==> e'[j] == (if j < i then entries[j] else entries[j + 1]);
      }
    case Put(entry) =>
      match ChildIndex(entries, entry.name) {
        case None =>
        case Some(i) =>
      }
  }

  /** Rebuilding a directory on the way down keeps its names, so the lookup still takes the same entry. */
  lemma DescendStep(entries: seq<Entry>, i: nat, child: Node, x: string, q: seq<string>)
    requires i < |entries|
    ensures var e' := entries[i := Entry(entries[i].name, child)];
      Locate(Dir(e'), [x] + q)
      == if ChildIndex(entries, x) == Some(i) then Locate(child, q) else Locate(Dir(entries), [x] + q)
  {
    var e' := entries[i := Entry(entries[i].name, child)];
    ChildIndexSameNames(entries, e', x);
    LocateStep(entries, x, q);
    LocateStep(e', x, q);
  }

  /** A change under `at` leaves every lookup through another name of that directory as it was. */
  lemma {:induction false} LocateSibling(root: Node, at: seq<string>, c: Change, x: string, q: seq<string>)
    requires x != ChangeName(c)
    ensures Locate(ChangeAt(root, at, c), at + [x] + q) == Locate(root, at + [x] + q)
    decreases |at|
  {
    match root
    case File(_, _) =>
    case Dir(entries) =>
      if at == [] {
        assert at + [x] + q == [x] + q;
        LocateStep(entries, x, q);
        LocateStep(ApplyChange(entries, c), x, q);
        ChildOtherName(entries, c, x);
      } else {
        var p := at + [x] + q;
        assert p == [at[0]] + (at[1..] + [x] + q);
        match ChildIndex(entries, at[0]) {
          case None =>
          case Some(i) =>
            var child := ChangeAt(entries[i].node, at[1..], c);
            DescendStep(entries, i, child, at[0], at[1..] + [x] + q);
            LocateStep(entries, at[0], at[1..] + [x] + q);
            LocateSibling(entries[i].node, at[1..], c, x, q);
        }
      }
  }

  /** With unique names, the changed name itself holds what the change says: nothing after a drop, the entry put otherwise. */
  lemma {:induction false} LocateChanged(root: Node, at: seq<string>, c: Change)
    requires WellFormed(root) && IsDirAt(root, at)
    ensures Locate(ChangeAt(root, at, c), at + [ChangeName(c)]) == match c case Drop(_) => None case Put(e) => Some(e.node)
    decreases |at|
  {
    var x := ChangeName(c);
    match root
    case Dir(entries) =>
      if at == [] {
        assert at + [x] == [x] + [];
        LocateStep(ApplyChange(entries, c), x, []);
        ChildChangedName(entries, c);
      } else {
        assert at + [x] == [at[0]] + (at[1..] + [x]);
        assert at == [at[0]] + at[1..];
        LocateStep(entries, at[0], at[1..]);
        var i := ChildIndex(entries, at[0]).value;
        var child := ChangeAt(entries[i].node, at[1..], c);
        DescendStep(entries, i, child, at[0], at[1..] + [x]);
        LocateChanged(entries[i].node, at[1..], c);
      }
  }

  /** A change keeps every directory a directory and makes none: it is about a non-directory entry and puts no directory. */
  ghost predicate KeepsDirs(root: Node, at: seq<string>, c: Change) {
    && (Locate(root, at + [ChangeName(c)]).None? || !Locate(root, at + [ChangeName(c)]).value.Dir?)
    && (c.Put? ==> !c.entry.node.Dir?)
  }

  /** A node that is not a directory leads nowhere that is a directory. */
  lemma NoDirBelowFile(n: Option<Node>, q: seq<string>)
    requires n.None? || !n.value.Dir?
    ensures !(n.Some? && Locate(n.value, q).Some? && Locate(n.value, q).value.Dir?)
  {
  }

  /** A change that keeps directories leaves the set of directory paths as it was. */
  lemma {:induction false} IsDirAtKept(root: Node, at: seq<string>, c: Change, p: seq<string>)
    requires WellFormed(root) && IsDirAt(root, at) && KeepsDirs(root, at, c)
    ensures IsDirAt(ChangeAt(root, at, c), p) <==> IsDirAt(root, p)
    decreases |at|
  {
    match root
    case Dir(entries) =>
      if p != [] {
        var x, q := p[0], p[1..];
        assert p == [x] + q;
        LocateStep(entries, x, q);
        if at == [] {
          var e' := ApplyChange(entries, c);
          LocateStep(e', x, q);
          if x != ChangeName(c) {
            ChildOtherName(entries, c, x);
          } else {
            ChildChangedName(entries, c);
            assert at + [ChangeName(c)] == [x] == [x] + [];
            LocateStep(entries, x, []);
            NoDirBelowFile(Child(entries, x), q);
            NoDirBelowFile(Child(e', x), q);
          }
        } else {
          assert at == [at[0]] + at[1..];
          LocateStep(entries, at[0], at[1..]);
          var i := ChildIndex(entries, at[0]).value;
          var child := ChangeAt(entries[i].node, at[1..], c);
          DescendStep(entries, i, child, x, q);
          if ChildIndex(entries, x) == Some(i) {
            assert at + [ChangeName(c)] == [at[0]] + (at[1..] + [ChangeName(c)]);
            LocateStep(entries, at[0], at[1..] + [ChangeName(c)]);
            IsDirAtKept(entries[i].node, at[1..], c, q);
          }
        }
      }
  }

  /** A change keeps the tree well formed when what it puts is. */
  lemma {:induction false} WellFormedChangeAt(root: Node, at: seq<string>, c: Change)
    requires WellFormed(root)
    requires c.Put? ==> ValidName(c.entry.name) && WellFormed(c.entry.node)
    ensures WellFormed(ChangeAt(root, at, c))
    decreases |at|
  {
    match root
    case File(_, _) =>
    case Dir(entries) =>
      if at == [] {
        ApplyChangeKeepsNames(entries, c);
      } else {
        match ChildIndex(entries, at[0]) {
          case None =>
          case Some(i) =>
            WellFormedChangeAt(entries[i].node, at[1..], c);
            var e' := entries[i := Entry(entries[i].name, ChangeAt(entries[i].node, at[1..], c))];
            assert forall j :: 0 <= j < |e'| ==> e'[j].name == entries[j].name;
        }
      }
  }

  /** Resolution only asks which paths are directories. */
  lemma {:induction false} ResolveDirKept(r1: Node, r2: Node, at: seq<string>, comps: seq<string>)
    requires forall p :: IsDirAt(r2, p) <==> IsDirAt(r1, p)
    ensures ResolveDir(r2, at, comps) == ResolveDir(r1, at, comps)
    decreases |comps|
  {
    if comps != [] {
      var c := comps[0];
      if c == "" || c == "." {
        ResolveDirKept(r1, r2, at, comps[1..]);
      } else if c == ".." {
        ResolveDirKept(r1, r2, Up(at), comps[1..]);
      } else {
        ResolveDirKept(r1, r2, at + [c], comps[1..]);
      }
    }
  }

  /** `dir` names a directory of a well-formed tree and ends with the separator. */
  ghost predicate DirOk(fs: Node, dir: string) {
    WellFormed(fs) && |dir| > 0 && Last(dir) == PathSep && IsDir(fs, dir)
  }

  /** A change under the directory `dir` that keeps directories keeps `dir` a directory, at the same place. */
  lemma DirOkAfterChange(fs: Node, dir: string, c: Change)
    requires DirOk(fs, dir) && KeepsDirs(fs, DirAt(fs, dir).value, c)
    requires c.Put? ==> ValidName(c.entry.name) && WellFormed(c.entry.node)
    ensures var fs' := ChangeAt(fs, DirAt(fs, dir).value, c);
      DirOk(fs', dir) && DirAt(fs', dir) == DirAt(fs, dir)
  {
    IsDirSyntax(fs, dir);
    var d := DirAt(fs, dir).value;
    var fs' := ChangeAt(fs, d, c);
    forall p ensures IsDirAt(fs', p) <==> IsDirAt(fs, p) {
      IsDirAtKept(fs, d, c, p);
    }
    ResolveDirKept(fs, fs', [], Split(dir, PathSep));
    WellFormedChangeAt(fs, d, c);
    IsDirSyntax(fs', dir);
  }

  /**
   * `rm(dir + name)` succeeds exactly when that is a regular file; afterwards the
   * directory is still there, still well formed, and holds nothing of that name.
   */
  lemma RemoveInDir(fs: Node, dir: string, name: string)
    requires DirOk(fs, dir) && ValidName(name)
    ensures Remove(fs, dir + name).Some? <==> IsFile(fs, dir + name)
    ensures Remove(fs, dir + name).Some? ==>
      var fs' := Remove(fs, dir + name).value;
      DirOk(fs', dir) && DirAt(fs', dir) == DirAt(fs, dir) && Stat(fs', dir + name).None?
  {
    IsDirSyntax(fs, dir);
    PlaceInDir(fs, dir, name);
    var d := DirAt(fs, dir).value;
    if IsFile(fs, dir + name) {
      var fs' := ChangeAt(fs, d, Drop(name));
      assert Remove(fs, dir + name) == Some(fs');
      DirOkAfterChange(fs, dir, Drop(name));
      LocateChanged(fs, d, Drop(name));
      PlaceInDir(fs', dir, name);
    }
  }

  /** `rm(dir + name)` leaves every other entry of `dir` as it was. */
  lemma RemoveKeepsSibling(fs: Node, dir: string, name: string, other: string)
    requires DirOk(fs, dir) && ValidName(name) && ValidName(other) && name != other
    requires Remove(fs, dir + name).Some?
    ensures Stat(Remove(fs, dir + name).value, dir + other) == Stat(fs, dir + other)
  {
    RemoveInDir(fs, dir, name);
    PlaceInDir(fs, dir, name);
    var d := DirAt(fs, dir).value;
    var fs' := Remove(fs, dir + name).value;
    assert fs' == ChangeAt(fs, d, Drop(name));
    PlaceInDir(fs, dir, other);
    PlaceInDir(fs', dir, other);
    LocateSibling(fs, d, Drop(name), other, []);
    assert d + [other] + [] == d + [other];
  }

  /**
   * `mkDir(dir + name)` succeeds exactly when nothing of that name is in `dir`; the new
   * entry is then an empty directory, and every other entry of `dir` stays as it was.
   */
  lemma MakeDirInDir(fs: Node, dir: string, name: string)
    requires DirOk(fs, dir) && ValidName(name)
    ensures MakeDir(fs, dir + name).Some? <==> Stat(fs, dir + name).None?
    ensures MakeDir(fs, dir + name).Some? ==>
      var d := DirAt(fs, dir).value;
      var fs' := MakeDir(fs, dir + name).value;
      && Locate(fs', d + [name]) == Some(Dir([]))
      && forall other :: other != name ==> Locate(fs', d + [other]) == Locate(fs, d + [other])
  {
    IsDirSyntax(fs, dir);
    PlaceInDir(fs, dir, name);
    var d := DirAt(fs, dir).value;
    var path := dir + name;
    assert path[|path| - 1] == name[|name| - 1];
    assert StripTrailingSeps(path) == path;
    if Stat(fs, path).None? {
      var c := Put(Entry(name, Dir([])));
      assert MakeDir(fs, path) == Some(ChangeAt(fs, d, c));
      LocateChanged(fs, d, c);
      forall other | other != name ensures Locate(ChangeAt(fs, d, c), d + [other]) == Locate(fs, d + [other]) {
        LocateSibling(fs, d, c, other, []);
        assert d + [other] + [] == d + [other];
      }
    }
  }

  /**
   * Writing `dir + name` leaves a regular file with the given time and lines there,
   * unless a directory of that name is in the way, in which case nothing changes;
   * the directory stays a well-formed directory.
   */
  lemma WriteInDir(fs: Node, dir: string, name: string, mtime: int, lines: seq<string>)
    requires DirOk(fs, dir) && ValidName(name)
    ensures var fs' := WriteFile(fs, dir + name, mtime, lines);
      && DirOk(fs', dir) && DirAt(fs', dir) == DirAt(fs, dir)
      && (IsDir(fs, dir + name) ==> fs' == fs)
      && (!IsDir(fs, dir + name) ==> Stat(fs', dir + name) == Some(File(mtime, lines)))
  {
    IsDirSyntax(fs, dir);
    PlaceInDir(fs, dir, name);
    var d := DirAt(fs, dir).value;
    if !IsDir(fs, dir + name) {
      var c := Put(Entry(name, File(mtime, lines)));
      var fs' := ChangeAt(fs, d, c);
      assert WriteFile(fs, dir + name, mtime, lines) == fs';
      DirOkAfterChange(fs, dir, c);
      LocateChanged(fs, d, c);
      PlaceInDir(fs', dir, name);
    }
  }

  /** Writing `dir + name` leaves every other entry of `dir` as it was. */
  lemma WriteKeepsSibling(fs: Node, dir: string, name: string, mtime: int, lines: seq<string>, other: string)
    requires DirOk(fs, dir) && ValidName(name) && ValidName(other) && name != other
    ensures Stat(WriteFile(fs, dir + name, mtime, lines), dir + other) == Stat(fs, dir + other)
  {
    WriteInDir(fs, dir, name, mtime, lines);
    IsDirSyntax(fs, dir);
    PlaceInDir(fs, dir, name);
    var d := DirAt(fs, dir).value;
    var fs' := WriteFile(fs, dir + name, mtime, lines);
    if !IsDir(fs, dir + name) {
      var c := Put(Entry(name, File(mtime, lines)));
      assert fs' == ChangeAt(fs, d, c);
      PlaceInDir(fs, dir, other);
      PlaceInDir(fs', dir, other);
      LocateSibling(fs, d, c, other, []);
      assert d + [other] + [] == d + [other];
    }
  }
}
