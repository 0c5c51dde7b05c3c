/** What the path helpers, the listing and the walk of FileUtils.h promise. */
module FileUtilsProperties {
  import opened Wrappers
  import opened StringUtils
  import opened FileSystem
  import opened FileUtils
  import opened FileSystemProperties

  /** `splitExt` cuts at the last dot only, and leaves a name without one whole. */
  lemma SplitExtExamples()
    ensures SplitExt("archive.tar.gz") == ("archive.tar", ".gz")
    ensures SplitExt("README") == ("README", "")
  {
    var name := "archive.tar.gz";
    assert name[11] == '.' && name[12] == 'g' && name[13] == 'z';
    assert RFind(name, '.', None) == Some(11);
    assert name[..11] == "archive.tar" && name[11..] == ".gz";
    assert '.' !in "README" by {
      assert forall i :: 0 <= i < 6 ==> "README"[i] != '.';
    }
  }

  /** `parentDir` disregards one trailing separator, and gives "" for a bare name and "/" for the root. */
  lemma ParentDirExamples()
    ensures ParentDir("a/b/") == "a/"
    ensures ParentDir("a/b") == "a/"
    ensures ParentDir("x") == ""
    ensures ParentDir("/") == "/"
  {
    assert "a/b/"[1] == '/' && "a/b/"[2] == 'b';
    assert RFind("a/b/", PathSep, Some(2)) == Some(1);
    assert "a/b"[1] == '/' && "a/b"[2] == 'b';
    assert RFind("a/b", PathSep, None) == Some(1);
    assert "x"[0] == 'x';
    assert RFind("/", PathSep, None) == Some(0);
  }

  /** The lookup of one more name below a path. */
  lemma {:induction false} LocateAppendOne(root: Node, at: seq<string>, name: string)
    ensures Locate(root, at + [name]) ==
      match Locate(root, at) case Some(Dir(es)) => Child(es, name) case _ => None
    decreases |at|
  {
    match root
    case File(_, _) =>
      if at == [] { assert at + [name] == [name] + []; }
    case Dir(entries) =>
      if at == [] {
        assert at + [name] == [name] + [];
        LocateStep(entries, name, []);
      } else {
        assert at + [name] == [at[0]] + (at[1..] + [name]);
        assert at == [at[0]] + at[1..];
        LocateStep(entries, at[0], at[1..] + [name]);
        LocateStep(entries, at[0], at[1..]);
        match ChildIndex(entries, at[0]) {
          case None =>
          case Some(i) => LocateAppendOne(entries[i].node, at[1..], name);
        }
      }
  }

  /** Every node of a well-formed tree is well formed. */
  lemma {:induction false} LocateWellFormed(root: Node, at: seq<string>)
    requires WellFormed(root) && Locate(root, at).Some?
    ensures WellFormed(Locate(root, at).value)
    decreases |at|
  {
    if at != [] {
      match root
      case Dir(entries) =>
        LocateWellFormed(entries[ChildIndex(entries, at[0]).value].node, at[1..]);
    }
  }

  /** With unique names, the entry called `name` is the first one so called. */
  lemma ChildOfUnique(entries: seq<Entry>, i: nat)
    requires UniqueNames(entries) && i < |entries|
    ensures Child(entries, entries[i].name) == Some(entries[i].node)
  {
    ChildIndexIs(entries, entries[i].name, i);
  }

  /**
   * `listDir(dir)` without directories reports exactly the entry names `n` of the
   * directory for which `dir + n` is not a directory (the `isDir(completePath)` test)
   * and which do not start with a dot.
   */
  lemma ListDirIff(fs: Node, dir: string, n: string)
    requires WellFormed(fs) && |dir| > 0
    ensures n in ListDir(fs, dir, false) <==>
      && IsDir(fs, WithSep(dir)) && ValidName(n) && !Hidden(n)
      && Stat(fs, WithSep(dir) + n).Some? && !Stat(fs, WithSep(dir) + n).value.Dir?
  {
    var top := WithSep(dir);
    IsDirSyntax(fs, top);
    if IsDir(fs, top) {
      var d := DirAt(fs, top).value;
      var entries := Stat(fs, top).value.entries;
      LocateWellFormed(fs, d);
      if ValidName(n) {
        PlaceInDir(fs, top, n);
        LocateAppendOne(fs, d, n);
        if n in ListDir(fs, dir, false) {
          var i :| 0 <= i < |entries| && entries[i].name == n && !Hidden(n) && !entries[i].node.Dir?;
          ChildOfUnique(entries, i);
        }
        if Stat(fs, top + n).Some? && !Hidden(n) {
          var i := ChildIndex(entries, n).value;
          assert entries[i].name == n;
        }
      }
    }
  }

  /**
   * The calls a walk of the directory `entries`, reached as `root`, must make: one for
   * each entry not starting with a dot, as a file when it is not a directory, as a
   * directory when it is one and `reportDirs` holds, and then those of its own walk.
   */
  ghost predicate Reaches(root: string, entries: seq<Entry>, reportDirs: bool, v: Visit)
    requires |root| > 0
    decreases entries
  {
    exists i :: 0 <= i < |entries| && EntryReaches(root, entries[i], reportDirs, v)
      && (entries[i].node.Dir? ==>
            || Reaches(WithSep(root + entries[i].name), entries[i].node.entries, reportDirs, v)
            || (v == Visit(root, entries[i].name, true) && reportDirs))
  }

  /** The call an entry itself accounts for, or, for a directory, the permission to look inside it. */
  predicate EntryReaches(root: string, e: Entry, reportDirs: bool, v: Visit) {
    !Hidden(e.name) && (e.node.Dir? || v == Visit(root, e.name, false))
  }

  /** A walk of a directory's entries makes the calls of its first entry, then those of the others. */
  lemma ReachesCons(root: string, entries: seq<Entry>, reportDirs: bool, v: Visit)
    requires |root| > 0 && entries != []
    ensures Reaches(root, entries, reportDirs, v) <==>
      || (EntryReaches(root, entries[0], reportDirs, v)
          && (entries[0].node.Dir? ==>
                || Reaches(WithSep(root + entries[0].name), entries[0].node.entries, reportDirs, v)
                || (v == Visit(root, entries[0].name, true) && reportDirs)))
      || Reaches(root, entries[1..], reportDirs, v)
  {
    if Reaches(root, entries, reportDirs, v) {
      var i :| 0 <= i < |entries| && EntryReaches(root, entries[i], reportDirs, v)
        && (entries[i].node.Dir? ==>
              || Reaches(WithSep(root + entries[i].name), entries[i].node.entries, reportDirs, v)
              || (v == Visit(root, entries[i].name, true) && reportDirs));
      if i > 0 {
        assert entries[1..][i - 1] == entries[i];
      }
    }
    if Reaches(root, entries[1..], reportDirs, v) {
      var i :| 0 <= i < |entries[1..]| && EntryReaches(root, entries[1..][i], reportDirs, v)
        && (entries[1..][i].node.Dir? ==>
              || Reaches(WithSep(root + entries[1..][i].name), entries[1..][i].node.entries, reportDirs, v)
              || (v == Visit(root, entries[1..][i].name, true) && reportDirs));
      assert entries[i + 1] == entries[1..][i];
    }
  }

  /** The walk makes exactly the calls the reference asks for. */
  lemma {:induction false} WalkEntriesIff(root: string, entries: seq<Entry>, reportDirs: bool, v: Visit)
    requires |root| > 0 && Last(root) == PathSep
    ensures v in WalkEntries(root, entries, reportDirs) <==> Reaches(root, entries, reportDirs, v)
    decreases entries
  {
    if entries != [] {
      var e := entries[0];
      ReachesCons(root, entries, reportDirs, v);
      WalkEntriesIff(root, entries[1..], reportDirs, v);
      if !Hidden(e.name) && e.node.Dir? {
        WalkEntriesIff(WithSep(root + e.name), e.node.entries, reportDirs, v);
      }
    }
  }

  /** `walk(root)` makes exactly the calls the reference asks for the directory `root` names, and none when it names none. */
  lemma WalkIff(fs: Node, root: string, reportDirs: bool, v: Visit)
    requires |root| > 0
    ensures v in Walk(fs, root, reportDirs) <==>
      IsDir(fs, WithSep(root)) && Reaches(WithSep(root), Stat(fs, WithSep(root)).value.entries, reportDirs, v)
  {
    if IsDir(fs, WithSep(root)) {
      WalkEntriesIff(WithSep(root), Stat(fs, WithSep(root)).value.entries, reportDirs, v);
    }
  }

  /** No element occurs twice. */
  predicate NoDuplicates<T(==)>(s: seq<T>) {
    forall i, j :: 0 <= i < j < |s| ==> s[i] != s[j]
  }

  lemma NoDuplicatesAppend<T>(a: seq<T>, b: seq<T>)
    requires NoDuplicates(a) && NoDuplicates(b) && forall x :: x in a ==> x !in b
    ensures NoDuplicates(a + b)
  {
    forall i, j | 0 <= i < j < |a + b| ensures (a + b)[i] != (a + b)[j] {
      if i < |a| && j >= |a| {
        assert (a + b)[i] in a && (a + b)[j] == b[j - |a|];
      }
    }
  }

  /** A call that belongs to the entry `name` of the directory `root`: the entry itself, or one below it. */
  predicate Within(root: string, name: string, v: Visit)
    requires |root| > 0
  {
    (v.root == root && v.name == name) || IsPrefix(WithSep(root + name), v.root)
  }

  /** Calls of two differently named entries of one directory never coincide. */
  lemma WithinDistinct(root: string, a: string, b: string, v: Visit)
    requires |root| > 0 && ValidName(a) && ValidName(b)
    requires Within(root, a, v) && Within(root, b, v)
    ensures a == b
  {
    assert WithSep(root + a) == root + a + [PathSep] by { assert Last(root + a) == a[|a| - 1]; }
    assert WithSep(root + b) == root + b + [PathSep] by { assert Last(root + b) == b[|b| - 1]; }
    if IsPrefix(WithSep(root + a), v.root) && IsPrefix(WithSep(root + b), v.root) {
      SeparatorAfterShorter(root, a, b, v.root);
      SeparatorAfterShorter(root, b, a, v.root);
      var k := |root|;
      assert a == v.root[k..k + |a|] == b;
    }
  }

  /** Of two names both followed by a separator at the start of `s`, the longer one holds that separator. */
  lemma SeparatorAfterShorter(p: string, a: string, b: string, s: string)
    requires IsPrefix(p + a + [PathSep], s) && IsPrefix(p + b + [PathSep], s)
    ensures |a| < |b| ==> b[|a|] == PathSep
  {
    if |a| < |b| {
      assert b[|a|] == (p + b + [PathSep])[|p| + |a|] == s[|p| + |a|];
    }
  }

  /** Every call of a walk over `entries` belongs to one of them. */
  lemma {:induction false} WalkEntriesWithin(root: string, entries: seq<Entry>, reportDirs: bool)
    requires |root| > 0 && Last(root) == PathSep
    ensures forall v :: v in WalkEntries(root, entries, reportDirs) ==>
      exists i :: 0 <= i < |entries| && Within(root, entries[i].name, v)
    decreases entries
  {
    if entries != [] {
      var e := entries[0];
      WalkEntriesWithin(root, entries[1..], reportDirs);
      forall v | v in WalkEntries(root, entries, reportDirs)
        ensures exists i :: 0 <= i < |entries| && Within(root, entries[i].name, v)
      {
        if v in WalkEntries(root, entries[1..], reportDirs) {
          var i :| 0 <= i < |entries[1..]| && Within(root, entries[1..][i].name, v);
          assert entries[i + 1] == entries[1..][i];
        } else {
          assert Within(root, entries[0].name, v);
        }
      }
    }
  }

  /** The entries of a well-formed directory, without the first. */
  lemma WellFormedTail(entries: seq<Entry>)
    requires WellFormed(Dir(entries)) && entries != []
    ensures WellFormed(Dir(entries[1..])) && WellFormed(entries[0].node) && ValidName(entries[0].name)
    ensures forall i :: 0 <= i < |entries[1..]| ==> entries[1..][i].name != entries[0].name
  {
    assert forall i :: 0 <= i < |entries[1..]| ==> entries[1..][i] == entries[i + 1];
  }

  /** In a well-formed tree, `walk` makes each call at most once. */
  lemma {:induction false} WalkEntriesNoDuplicates(root: string, entries: seq<Entry>, reportDirs: bool)
    requires |root| > 0 && Last(root) == PathSep && WellFormed(Dir(entries))
    ensures NoDuplicates(WalkEntries(root, entries, reportDirs))
    decreases entries
  {
    if entries != [] {
      var e := entries[0];
      WellFormedTail(entries);
      var rest := WalkEntries(root, entries[1..], reportDirs);
      WalkEntriesNoDuplicates(root, entries[1..], reportDirs);
      WalkEntriesWithin(root, entries[1..], reportDirs);
      if !Hidden(e.name) {
        var own := WalkEntries(root, entries, reportDirs)[..|WalkEntries(root, entries, reportDirs)| - |rest|];
        assert WalkEntries(root, entries, reportDirs) == own + rest;
        if e.node.Dir? {
          var sub := WithSep(root + e.name);
          var below := WalkEntries(sub, e.node.entries, reportDirs);
          var head: seq<Visit> := if reportDirs then [Visit(root, e.name, true)] else [];
          WalkEntriesNoDuplicates(sub, e.node.entries, reportDirs);
          assert own == head + below;
          forall v | v in below ensures v !in head {
            assert IsPrefix(sub, v.root) && |sub| > |root|;
          }
          NoDuplicatesAppend(head, below);
        }
        forall v | v in own ensures v !in rest {
          assert Within(root, e.name, v);
          if v in rest {
            var i :| 0 <= i < |entries[1..]| && Within(root, entries[1..][i].name, v);
            WithinDistinct(root, e.name, entries[1..][i].name, v);
          }
        }
        NoDuplicatesAppend(own, rest);
      }
    }
  }

  /** `walk` reaches each of its calls exactly once: it makes it once when the reference asks for it, and otherwise never. */
  lemma WalkExactlyOnce(fs: Node, root: string, reportDirs: bool)
    requires |root| > 0 && WellFormed(fs)
    ensures NoDuplicates(Walk(fs, root, reportDirs))
  {
    var top := WithSep(root);
    if IsDir(fs, top) {
      IsDirSyntax(fs, top);
      LocateWellFormed(fs, DirAt(fs, top).value);
      WalkEntriesNoDuplicates(top, Stat(fs, top).value.entries, reportDirs);
    }
  }

  /** Every call of a walk of a well-formed tree carries an entry name: no separator, never "", "." or "..". */
  lemma {:induction false} WalkEntriesNamesValid(root: string, entries: seq<Entry>, reportDirs: bool)
    requires |root| > 0 && Last(root) == PathSep && WellFormed(Dir(entries))
    ensures forall v :: v in WalkEntries(root, entries, reportDirs) ==> ValidName(v.name) && !Hidden(v.name)
    decreases entries
  {
    if entries != [] {
      var e := entries[0];
      WellFormedTail(entries);
      WalkEntriesNamesValid(root, entries[1..], reportDirs);
      if !Hidden(e.name) && e.node.Dir? {
        WalkEntriesNamesValid(WithSep(root + e.name), e.node.entries, reportDirs);
      }
    }
  }

  lemma WalkNamesValid(fs: Node, root: string, reportDirs: bool)
    requires |root| > 0 && WellFormed(fs)
    ensures forall v :: v in Walk(fs, root, reportDirs) ==> ValidName(v.name) && !Hidden(v.name)
  {
    var top := WithSep(root);
    if IsDir(fs, top) {
      IsDirSyntax(fs, top);
      LocateWellFormed(fs, DirAt(fs, top).value);
      WalkEntriesNamesValid(top, Stat(fs, top).value.entries, reportDirs);
    }
  }
}
