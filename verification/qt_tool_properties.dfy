/** What the tool variants promise: staleness, input recognition, output names and the launched command. */
module QtToolProperties {
  import opened Wrappers
  import opened StringUtils
  import opened FileSystem
  import opened FileUtils
  import opened QtTool

  /** Equal modification times count as up to date: the comparison is strict. */
  lemma EqualTimesUpToDate(fs: Node, inFile: string, outFile: string)
    requires IsFile(fs, inFile) && IsFile(fs, outFile)
    ensures MTime(fs, inFile) == MTime(fs, outFile) ==> !DefaultNeedsToRun(fs, inFile, outFile)
    ensures DefaultNeedsToRun(fs, inFile, outFile) <==> MTime(fs, inFile) > MTime(fs, outFile)
  {
  }

  /** The default rule's three cases: no input, no output, then the times. */
  lemma DefaultNeedsToRunCases(fs: Node, inFile: string, outFile: string)
    ensures !IsFile(fs, inFile) ==> !DefaultNeedsToRun(fs, inFile, outFile)
    ensures IsFile(fs, inFile) && !IsFile(fs, outFile) ==> DefaultNeedsToRun(fs, inFile, outFile)
  {
  }

  /**
   * The default rule is monotone in the times: with both files present in both
   * filesystems, a newer input or an older output can only turn "up to date" into "stale".
   */
  lemma DefaultNeedsToRunMonotone(fs: Node, fs': Node, inFile: string, outFile: string)
    requires IsFile(fs, inFile) && IsFile(fs, outFile) && IsFile(fs', inFile) && IsFile(fs', outFile)
    requires MTime(fs', inFile) >= MTime(fs, inFile) && MTime(fs', outFile) <= MTime(fs, outFile)
    ensures DefaultNeedsToRun(fs, inFile, outFile) ==> DefaultNeedsToRun(fs', inFile, outFile)
  {
  }

  /** Moc and uic keep the default rule; rcc's override only adds reasons to run. */
  lemma OnlyRccOverrides(kind: Kind, fs: Node, inFile: string, outFile: string)
    requires |inFile| > 0
    ensures kind != Rcc ==> (NeedsToRun(kind, fs, inFile, outFile) <==> DefaultNeedsToRun(fs, inFile, outFile))
    ensures DefaultNeedsToRun(fs, inFile, outFile) ==> NeedsToRun(kind, fs, inFile, outFile)
  {
  }

  /**
   * Rcc's rule in full: the manifest itself is stale, or some line of it names a
   * resource, relative to the manifest's directory, that is newer than the output.
   */
  lemma RccNeedsToRunIff(fs: Node, inFile: string, outFile: string)
    requires |inFile| > 0
    ensures RccNeedsToRun(fs, inFile, outFile) <==>
      || DefaultNeedsToRun(fs, inFile, outFile)
      || exists i ::
           0 <= i < |ReadLines(fs, inFile)| && ManifestEntry(ReadLines(fs, inFile)[i]).Some?
           && DefaultNeedsToRun(fs, ParentDir(inFile) + ManifestEntry(ReadLines(fs, inFile)[i]).value, outFile)
  {
  }

  /** A manifest line naming a resource that is not a regular file never forces a run. */
  lemma MissingResourceNeverForces(fs: Node, inFile: string, outFile: string)
    requires |inFile| > 0
    requires forall i :: 0 <= i < |ReadLines(fs, inFile)| && ManifestEntry(ReadLines(fs, inFile)[i]).Some? ==>
      !IsFile(fs, ParentDir(inFile) + ManifestEntry(ReadLines(fs, inFile)[i]).value)
    ensures RccNeedsToRun(fs, inFile, outFile) <==> DefaultNeedsToRun(fs, inFile, outFile)
  {
  }

  /** Once the output is newer than the manifest and every resource it names, rcc has nothing to do. */
  lemma RccUpToDate(fs: Node, inFile: string, outFile: string)
    requires |inFile| > 0 && IsFile(fs, outFile)
    requires IsFile(fs, inFile) ==> MTime(fs, inFile) <= MTime(fs, outFile)
    requires forall i :: 0 <= i < |ReadLines(fs, inFile)| && ManifestEntry(ReadLines(fs, inFile)[i]).Some? ==>
      var res := ParentDir(inFile) + ManifestEntry(ReadLines(fs, inFile)[i]).value;
      IsFile(fs, res) ==> MTime(fs, res) <= MTime(fs, outFile)
    ensures !RccNeedsToRun(fs, inFile, outFile)
  {
  }

  /** `find` gives `k` when `p` occurs at `k` and nowhere before. */
  lemma FindIs(s: string, p: string, k: nat)
    requires OccursAt(s, p, k) && forall j: nat :: j < k ==> !OccursAt(s, p, j)
    ensures Find(s, p) == Some(k)
  {
  }

  /**
   * A manifest line yields exactly the text between its first `<file>` and the
   * `</file>` after it, spaces included, whatever follows; an empty name yields nothing.
   * `pre` is whatever comes before the first `<file>`, such as `<qresource>`, and `fn`
   * is whatever comes before the first `</file>` after it.
   */
  lemma ManifestEntryReadsTaggedName(pre: string, fn: string, post: string)
    requires forall j: nat :: j < |pre| ==> !OccursAt(pre + FileOpenTag, FileOpenTag, j)
    requires forall j: nat :: j < |fn| ==> !OccursAt(fn + FileCloseTag, FileCloseTag, j)
    ensures ManifestEntry(pre + FileOpenTag + fn + FileCloseTag + post) == if fn == [] then None else Some(fn)
  {
    var line := pre + FileOpenTag + fn + FileCloseTag + post;
    FirstOpenTag(pre, fn + FileCloseTag + post);
    assert line == pre + FileOpenTag + (fn + FileCloseTag + post);
    var rest := line[|pre| + |FileOpenTag|..];
    assert rest == fn + FileCloseTag + post;
    var q := fn + FileCloseTag;
    assert rest == q + post && rest[..|q|] == q;
    assert rest[|fn|..|fn| + |FileCloseTag|] == FileCloseTag;
    forall j: nat | j < |fn| ensures !OccursAt(rest, FileCloseTag, j) {
      assert !OccursAt(q, FileCloseTag, j);
      assert rest[j..j + |FileCloseTag|] == q[j..j + |FileCloseTag|];
    }
    FindIs(rest, FileCloseTag, |fn|);
    assert rest[..|fn|] == fn;
  }

  /** A one-line manifest names its resource: `<qresource><file>a.png</file></qresource>` gives "a.png". */
  lemma ManifestEntryInQresource()
    ensures ManifestEntry("<qresource>" + FileOpenTag + "a.png" + FileCloseTag + "</qresource>") == Some("a.png")
  {
    var pre, fn, post := "<qresource>", "a.png", "</qresource>";
    var q := pre + FileOpenTag;
    assert forall k :: 1 <= k < |q| - 5 ==> q[k] != 'f';
    forall j: nat | j < |pre| ensures !OccursAt(q, FileOpenTag, j) {
      assert j + 6 <= |q| ==> q[j..j + 6][1] == q[j + 1];
    }
    var q' := fn + FileCloseTag;
    assert forall k :: 1 <= k <= |fn| ==> q'[k] != '/';
    forall j: nat | j < |fn| ensures !OccursAt(q', FileCloseTag, j) {
      assert j + 7 <= |q'| ==> q'[j..j + 7][1] == q'[j + 1];
    }
    ManifestEntryReadsTaggedName(pre, fn, post);
  }

  /** The first `<file>` of `pre + "<file>" + rest` is the one after `pre` when none starts inside `pre`. */
  lemma FirstOpenTag(pre: string, rest: string)
    requires forall j: nat :: j < |pre| ==> !OccursAt(pre + FileOpenTag, FileOpenTag, j)
    ensures Find(pre + FileOpenTag + rest, FileOpenTag) == Some(|pre|)
  {
    var line := pre + FileOpenTag + rest;
    var q := pre + FileOpenTag;
    assert line == q + rest && line[..|q|] == q;
    assert line[|pre|..|pre| + |FileOpenTag|] == FileOpenTag;
    forall j: nat | j < |pre| ensures !OccursAt(line, FileOpenTag, j) {
      assert !OccursAt(q, FileOpenTag, j);
      assert line[j..j + |FileOpenTag|] == q[j..j + |FileOpenTag|];
    }
    FindIs(line, FileOpenTag, |pre|);
  }

  /** A `<file>` tag that is never closed names nothing. */
  lemma ManifestEntryUnclosed(pre: string, rest: string)
    requires forall j: nat :: j < |pre| ==> !OccursAt(pre + FileOpenTag, FileOpenTag, j)
    requires !Contains(rest, FileCloseTag)
    ensures ManifestEntry(pre + FileOpenTag + rest) == None
  {
    FirstOpenTag(pre, rest);
    assert (pre + FileOpenTag + rest)[|pre| + |FileOpenTag|..] == rest;
  }


  /** The moc predicate in full: a header suffix (in `endsWith`'s sense) and some line mentioning Q_OBJECT. */
  lemma MocInputIff(fs: Node, inFile: string)
    ensures IsFileInput(Moc, fs, inFile) <==>
      && (EndsWith(inFile, ".h") || EndsWith(inFile, ".hpp") || EndsWith(inFile, ".hh") || EndsWith(inFile, ".hxx"))
      && IsFile(fs, inFile)
      && exists i :: 0 <= i < |ReadLines(fs, inFile)| && Contains(ReadLines(fs, inFile)[i], MocMarker)
  {
  }

  /** Uic and rcc never look at the file: the same path is accepted or refused whatever the filesystem holds. */
  lemma UicRccIgnoreContents(fs: Node, fs': Node, inFile: string)
    ensures IsFileInput(Uic, fs, inFile) == IsFileInput(Uic, fs', inFile)
    ensures IsFileInput(Rcc, fs, inFile) == IsFileInput(Rcc, fs', inFile)
    ensures IsFileInput(Uic, fs, inFile) ==> IsSuffix(".ui", inFile)
    ensures IsFileInput(Rcc, fs, inFile) ==> IsSuffix(".qrc", inFile)
  {
  }

  /**
   * `endsWith` on the whole path: a ".h" occurring earlier in a directory name hides
   * a header from moc, whatever the file contains.
   */
  lemma DottedDirectoryHidesHeader(fs: Node)
    ensures IsSuffix(".h", "src/my.http/w.h")
    ensures !IsFileInput(Moc, fs, "src/my.http/w.h")
  {
    var path := "src/my.http/w.h";
    assert OccursAt(path, ".h", 6);
    assert !EndsWith(path, ".h");
    assert !IsSuffix(".hpp", path) by { assert path[|path| - 4..] != ".hpp"; }
    assert !IsSuffix(".hh", path) by { assert path[|path| - 3..] != ".hh"; }
    assert !IsSuffix(".hxx", path) by { assert path[|path| - 4..] != ".hxx"; }
  }

  /** For a name with a single dot, `splitExt` cuts at that dot. */
  lemma SplitExtSingleDot(f: string, i: nat)
    requires i < |f| && f[i] == '.' && forall j :: 0 <= j < |f| && j != i ==> f[j] != '.'
    ensures SplitExt(f) == (f[..i], f[i..])
  {
    var (base, ext) := SplitExt(f);
    assert f[|base|] == ext[0];
  }

  /** The output name determines the variant and the base name it was made from. */
  lemma OutFilenameInjective(k1: Kind, a: string, k2: Kind, b: string)
    requires OutFilename(k1, a) == OutFilename(k2, b)
    ensures k1 == k2 && SplitExt(a).0 == SplitExt(b).0
  {
    var r := OutFilename(k1, a);
    assert r[..3] == OutPrefix(k1) && r[..3] == OutPrefix(k2);
    assert k1 == k2 by {
      assert OutPrefix(k1)[0] == OutPrefix(k2)[0];
    }
  }

  /** Names differing only in their extension collide: `w.h` and `w.hpp` share one moc output. */
  lemma SameBaseCollision()
    ensures OutFilename(Moc, "w.h") == OutFilename(Moc, "w.hpp") == "mo_w.cc"
  {
    SplitExtSingleDot("w.h", 1);
    SplitExtSingleDot("w.hpp", 1);
  }

  /** The three naming schemes on their usual inputs. */
  lemma OutFilenameExamples()
    ensures OutFilename(Uic, "dialog.ui") == "ui_dialog.h"
    ensures OutFilename(Rcc, "res.qrc") == "rc_res.cc"
  {
    var ui := "dialog.ui";
    assert ui[6] == '.' && ui[7] == 'u' && ui[8] == 'i';
    assert RFind(ui, '.', None) == Some(6);
    assert ui[..6] == "dialog";
    var qrc := "res.qrc";
    assert qrc[3] == '.' && qrc[4] == 'q' && qrc[5] == 'r' && qrc[6] == 'c';
    assert RFind(qrc, '.', None) == Some(3);
    assert qrc[..3] == "res";
  }

  /** An output name built from an entry name is itself an entry name: it stays directly inside the output directory. */
  lemma OutFilenameValid(kind: Kind, inFilename: string)
    requires PathSep !in inFilename
    ensures ValidName(OutFilename(kind, inFilename))
  {
    var r := OutFilename(kind, inFilename);
    var base := SplitExt(inFilename).0;
    assert PathSep !in base by {
      assert base == inFilename[..|base|];
    }
    assert PathSep !in OutPrefix(kind) + OutSuffix(kind) by {
      match kind
      case Moc =>
      case Uic =>
      case Rcc =>
    }
    assert r == OutPrefix(kind) + base + OutSuffix(kind);
    assert |r| >= 5;
  }

  /**
   * The launched command: the executable, the options (with one space before them
   * only when there are any), then `-o`, the output and the input, space-separated.
   */
  lemma CommandLineShape(t: Tool, inFile: string, outFile: string)
    ensures IsPrefix(t.exePath, CommandLine(t, inFile, outFile))
    ensures IsSuffix(" -o " + outFile + " " + inFile, CommandLine(t, inFile, outFile))
    ensures |t.cmdOpts| == 0 ==> CommandLine(t, inFile, outFile) == t.exePath + " -o " + outFile + " " + inFile
    ensures |t.cmdOpts| > 0 ==>
      CommandLine(t, inFile, outFile)[|t.exePath|..|t.exePath| + 1 + |t.cmdOpts|] == " " + t.cmdOpts
    ensures |CommandLine(t, inFile, outFile)|
      == |t.exePath| + (if |t.cmdOpts| > 0 then 1 + |t.cmdOpts| else 0) + |" -o " + outFile + " " + inFile|
  {
    var cmd := CommandLine(t, inFile, outFile);
    var opts := if |t.cmdOpts| > 0 then " " + t.cmdOpts else "";
    assert cmd == t.exePath + opts + (" -o " + outFile + " " + inFile);
    assert cmd[..|t.exePath|] == t.exePath;
  }

  /** A fresh output means no launch at all: the result does not depend on what launching would do. */
  lemma RunIfNeededFreshIgnoresLaunch(t: Tool, l1: string -> Launch, l2: string -> Launch,
                                      fs: Node, inFile: string, outFile: string)
    requires |inFile| > 0 && !NeedsToRun(t.kind, fs, inFile, outFile)
    ensures RunIfNeeded(t, l1, fs, inFile, outFile) == RunIfNeeded(t, l2, fs, inFile, outFile) == Success((false, fs))
  {
  }

  /**
   * The launch is consulted once, with the command line of `runIfNeeded`, and
   * nothing else: two launchers agreeing on that command give the same result.
   */
  lemma RunIfNeededUsesOnlyItsCommand(t: Tool, l1: string -> Launch, l2: string -> Launch,
                                      fs: Node, inFile: string, outFile: string)
    requires |inFile| > 0 && l1(CommandLine(t, inFile, outFile)) == l2(CommandLine(t, inFile, outFile))
    ensures RunIfNeeded(t, l1, fs, inFile, outFile) == RunIfNeeded(t, l2, fs, inFile, outFile)
  {
  }
}
