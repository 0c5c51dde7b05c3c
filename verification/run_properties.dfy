/**
 * What `Driver::run` promises about the output directory: the generators only touch
 * their own outputs, and the clean-up deletes exactly the prior outputs that the run
 * did not account for, leaving everything else in place.
 */
module RunProperties {
  import opened Wrappers
  import opened StringUtils
  import opened FileSystem
  import opened FileUtils
  import opened QtTool
  import opened Driver
  import opened DriverProperties
  import opened FileSystemProperties
  import opened FileUtilsProperties
  import opened QtToolProperties
  import Report

  /**
   * The clean-up over the files `outD + n` for the listed names `n`: it removes the
   * ones that are regular files and not expected, reports exactly those, and leaves
   * every other path of the output directory as it was.
   */
  lemma {:induction false} ReconcileInDir(fs: Node, outD: string, names: seq<string>, expected: seq<string>)
    requires DirOk(fs, outD) && forall i :: 0 <= i < |names| ==> ValidName(names[i])
    ensures var (fs', deleted) := Reconcile(fs, InDir(outD, names), expected);
      && DirOk(fs', outD)
      && (forall i :: 0 <= i < |names| ==>
            (outD + names[i] in deleted <==> outD + names[i] !in expected && IsFile(fs, outD + names[i])))
      && (forall n :: ValidName(n) && outD + n !in deleted ==> Stat(fs', outD + n) == Stat(fs, outD + n))
      && (forall p :: p in deleted ==> Stat(fs', p).None?)
    decreases |names|
  {
    if names != [] {
      var old' := InDir(outD, names);
      var n0 := names[0];
      var p := outD + n0;
      assert old'[0] == p && old'[1..] == InDir(outD, names[1..]);
      var fs1 := if p !in expected && Remove(fs, p).Some? then Remove(fs, p).value else fs;
      RemoveInDir(fs, outD, n0);
      ReconcileInDir(fs1, outD, names[1..], expected);
      var (fs', rest) := Reconcile(fs1, InDir(outD, names[1..]), expected);
      var deleted := Reconcile(fs, old', expected).1;
      assert Reconcile(fs, old', expected).0 == fs';
      assert deleted == (if p !in expected && Remove(fs, p).Some? then [p] else []) + rest;
      forall n | ValidName(n) && n != n0
        ensures Stat(fs1, outD + n) == Stat(fs, outD + n)
      {
        if p !in expected && Remove(fs, p).Some? {
          RemoveKeepsSibling(fs, outD, n0, n);
        }
      }
      forall i | 0 <= i < |names|
        ensures outD + names[i] in deleted <==> outD + names[i] !in expected && IsFile(fs, outD + names[i])
      {
        if i > 0 {
          assert names[1..][i - 1] == names[i];
        }
      }
    }
  }

  /** What a launch that ran leaves in the output directory: at most the one output it was given. */
  lemma AfterLaunchInDir(fs: Node, outD: string, name: string, output: Option<Generated>)
    requires DirOk(fs, outD) && ValidName(name)
    ensures var fs' := AfterLaunch(fs, outD + name, output);
      && DirOk(fs', outD)
      && forall n :: ValidName(n) && n != name ==> Stat(fs', outD + n) == Stat(fs, outD + n)
  {
    if output.Some? {
      var g := output.value;
      WriteInDir(fs, outD, name, g.mtime, g.lines);
      forall n | ValidName(n) && n != name
        ensures Stat(WriteFile(fs, outD + name, g.mtime, g.lines), outD + n) == Stat(fs, outD + n)
      {
        WriteKeepsSibling(fs, outD, name, g.mtime, g.lines, n);
      }
    }
  }

  /**
   * One call of the action writes at most the output of the visited file, which it
   * then lists as expected; every other path of the output directory stays as it was.
   */
  lemma DispatchKeepsOthers(tools: seq<Tool>, outD: string, launch: string -> Launch, st: WalkState, v: Visit)
    requires DirOk(st.fs, outD) && |v.root| > 0 && PathSep !in v.name
    ensures var st' := Dispatch(tools, outD, launch, st, v);
      && DirOk(st'.fs, outD)
      && (forall p :: p in st.buckets.expected ==> p in st'.buckets.expected)
      && (forall n :: ValidName(n) && outD + n !in st'.buckets.expected ==> Stat(st'.fs, outD + n) == Stat(st.fs, outD + n))
  {
    var inFile := v.root + v.name;
    var m := FirstMatch(tools, st.fs, inFile);
    if m.Some? {
      var t := tools[m.value];
      var name := OutFilename(t.kind, v.name);
      var outFile := outD + name;
      OutFilenameValid(t.kind, v.name);
      var launched := launch(CommandLine(t, inFile, outFile));
      if NeedsToRun(t.kind, st.fs, inFile, outFile) && launched.Exited? {
        AfterLaunchInDir(st.fs, outD, name, launched.output);
      }
    }
  }

  /** Over the whole walk, only the outputs listed as expected can change in the output directory. */
  lemma {:induction false} DispatchAllKeepsOthers(tools: seq<Tool>, outD: string, launch: string -> Launch,
                                                  st: WalkState, visits: seq<Visit>)
    requires DirOk(st.fs, outD)
    requires forall v :: v in visits ==> |v.root| > 0 && PathSep !in v.name
    ensures var st' := DispatchAll(tools, outD, launch, st, visits);
      && DirOk(st'.fs, outD)
      && (forall p :: p in st.buckets.expected ==> p in st'.buckets.expected)
      && (forall n :: ValidName(n) && outD + n !in st'.buckets.expected ==> Stat(st'.fs, outD + n) == Stat(st.fs, outD + n))
    decreases |visits|
  {
    if visits != [] {
      var st1 := Dispatch(tools, outD, launch, st, visits[0]);
      DispatchKeepsOthers(tools, outD, launch, st, visits[0]);
      assert forall v :: v in visits[1..] ==> v in visits;
      DispatchAllKeepsOthers(tools, outD, launch, st1, visits[1..]);
    }
  }

  /**
   * A run into an existing output directory of a well-formed tree: the prior outputs
   * are the regular files, not starting with a dot, directly inside the output
   * directory before the walk; it deletes exactly those it did not expect, they are gone afterwards, and no
   * other path of the output directory changes during the clean-up; in particular the
   * outputs of this run stay. Every expected output was classified exactly once. The
   * directories are the configured ones with a trailing separator, and the report lists
   * the run's own classification and deletions.
   */
  lemma RunCleansUp(cfg: Config, fs: Node, launch: string -> Launch)
    requires |cfg.inD| > 0 && |cfg.outD| > 0 && WellFormed(fs) && IsDir(fs, WithSep(cfg.outD))
    ensures Run(cfg, fs, launch).Success?
    ensures var o := Run(cfg, fs, launch).value;
      && o.outD == WithSep(cfg.outD) && o.inD == WithSep(cfg.inD)
      && o.report == Report.Lines(o.inD, o.buckets.generated, o.buckets.updated, o.buckets.untouched, o.deleted, o.buckets.errors)
      && (forall p :: p in o.oldFiles <==>
            exists n :: p == o.outD + n && ValidName(n) && !Hidden(n) && IsFile(fs, o.outD + n))
      && (forall p :: p in o.oldFiles ==> (p in o.deleted <==> p !in o.buckets.expected))
      && (forall p :: p in o.deleted ==> p in o.oldFiles && Stat(o.fs, p).None?)
      && (forall n :: ValidName(n) && o.outD + n !in o.deleted ==> Stat(o.fs, o.outD + n) == Stat(o.walked, o.outD + n))
      && Partitioned(o.buckets)
  {
    var outD := WithSep(cfg.outD);
    var names := ListDir(fs, outD, false);
    var visits := Walk(fs, WithSep(cfg.inD), false);
    var tools := Tools(cfg);
    var walked := DispatchAll(tools, outD, launch, WalkState(fs, NoBuckets), visits);
    var o := Run(cfg, fs, launch).value;
    assert o.outD == outD && o.oldFiles == InDir(outD, names) && o.buckets == walked.buckets && o.walked == walked.fs;
    assert (o.fs, o.deleted) == Reconcile(walked.fs, o.oldFiles, walked.buckets.expected);
    assert WithSep(outD) == outD;
    OldFilesExact(fs, outD);
    assert DirOk(fs, outD);
    WalkNamesValid(fs, WithSep(cfg.inD), false);
    DispatchAllKeepsOthers(tools, outD, launch, WalkState(fs, NoBuckets), visits);
    DispatchAllPartition(tools, outD, launch, WalkState(fs, NoBuckets), visits);
    ReconcileInDir(walked.fs, outD, names, walked.buckets.expected);
    forall p | p in o.oldFiles
      ensures p in o.deleted <==> p !in o.buckets.expected
    {
      var i :| 0 <= i < |names| && o.oldFiles[i] == p;
    }
  }

  /**
   * The prior outputs `run` collects are exactly the paths `outD + n` of the regular
   * files `n`, not starting with a dot, directly inside the output directory.
   */
  lemma OldFilesExact(fs: Node, outD: string)
    requires WellFormed(fs) && |outD| > 0 && Last(outD) == PathSep && IsDir(fs, outD)
    ensures var names := ListDir(fs, outD, false);
      && (forall i :: 0 <= i < |names| ==> ValidName(names[i]) && IsFile(fs, outD + names[i]))
      && (forall p :: p in InDir(outD, names) <==>
            exists n :: p == outD + n && ValidName(n) && !Hidden(n) && IsFile(fs, outD + n))
  {
    var names := ListDir(fs, outD, false);
    var old' := InDir(outD, names);
    assert WithSep(outD) == outD;
    forall i | 0 <= i < |names|
      ensures ValidName(names[i]) && IsFile(fs, outD + names[i])
    {
      ListDirIff(fs, outD, names[i]);
    }
    forall p | p in old'
      ensures exists n :: p == outD + n && ValidName(n) && !Hidden(n) && IsFile(fs, outD + n)
    {
      var i :| 0 <= i < |names| && old'[i] == p;
      ListDirIff(fs, outD, names[i]);
    }
    forall p | exists n :: p == outD + n && ValidName(n) && !Hidden(n) && IsFile(fs, outD + n)
      ensures p in old'
    {
      var n :| p == outD + n && ValidName(n) && !Hidden(n) && IsFile(fs, outD + n);
      ListDirIff(fs, outD, n);
      var i :| 0 <= i < |names| && names[i] == n;
      assert old'[i] == p;
    }
  }
}
