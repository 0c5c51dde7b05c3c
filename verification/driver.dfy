/**
 * `Driver` of main.cpp: sets the three tools up, lists the outputs of the previous
 * run, walks the input tree handing every file to the first tool that accepts it,
 * removes the outputs nobody produced this time, and builds the report.
 */
module Driver {
  import opened Wrappers
  import opened StringUtils
  import opened FileSystem
  import opened FileUtils
  import opened QtTool
  import Report

  /** The globals `main` fills in before `Driver::run`: the Qt bin path, both directories and each tool's options. */
  datatype Config = Config(qtBinPath: string, inD: string, outD: string,
                           mocOpts: string, uicOpts: string, rccOpts: string)

  /** `tools_` as `run` sets it up: moc, uic and rcc in this order, each with its options and initialised. */
  function Tools(cfg: Config): (r: seq<Tool>)
    ensures |r| == 3 && r[0].kind == Moc && r[1].kind == Uic && r[2].kind == Rcc
    ensures r[0].cmdOpts == cfg.mocOpts && r[1].cmdOpts == cfg.uicOpts && r[2].cmdOpts == cfg.rccOpts
    ensures forall i :: 0 <= i < 3 ==> r[i].exePath == Init(r[i], cfg.qtBinPath).exePath
  {
    [ Init(SetCmdOpts(NewTool(Moc), cfg.mocOpts), cfg.qtBinPath),
      Init(SetCmdOpts(NewTool(Uic), cfg.uicOpts), cfg.qtBinPath),
      Init(SetCmdOpts(NewTool(Rcc), cfg.rccOpts), cfg.qtBinPath) ]
  }

  /**
   * The lists a run fills in: `newFiles_` (the outputs expected to exist), `genFiles_`,
   * `updatedFiles_`, `untouchedFiles_` and `errors_`.
   */
  datatype Buckets = Buckets(expected: seq<string>, generated: seq<string>, updated: seq<string>,
                             untouched: seq<string>, errors: seq<string>)

  const NoBuckets: Buckets := Buckets([], [], [], [], [])

  /** The filesystem and the lists, as they stand between two calls of the walk's action. */
  datatype WalkState = WalkState(fs: Node, buckets: Buckets)

  /** The position of the first tool, from `from` on, whose `isFileInput` accepts `inFile`. */
  function FirstMatchFrom(tools: seq<Tool>, fs: Node, inFile: string, from: nat): (r: Option<nat>)
    requires from <= |tools|
    ensures r.Some? ==> from <= r.value < |tools| && IsFileInput(tools[r.value].kind, fs, inFile)
    ensures r.Some? ==> forall j :: from <= j < r.value ==> !IsFileInput(tools[j].kind, fs, inFile)
    ensures r.None? ==> forall j :: from <= j < |tools| ==> !IsFileInput(tools[j].kind, fs, inFile)
    decreases |tools| - from
  {
    if from == |tools| then None
    else if IsFileInput(tools[from].kind, fs, inFile) then Some(from)
    else FirstMatchFrom(tools, fs, inFile, from + 1)
  }

  /** The loop over `tools_` in `operator()`: the first tool that accepts the file, tried in order. */
  function FirstMatch(tools: seq<Tool>, fs: Node, inFile: string): (r: Option<nat>)
    ensures r.Some? ==> r.value < |tools| && IsFileInput(tools[r.value].kind, fs, inFile)
    ensures forall j :: 0 <= j < |tools| && (r.None? || j < r.value) ==> !IsFileInput(tools[j].kind, fs, inFile)
  {
    FirstMatchFrom(tools, fs, inFile, 0)
  }

  /** The entry `errors_` receives for a file whose tool threw. */
  function ErrorLine(filename: string, message: string): string {
    filename + ": " + message
  }

  /**
   * `Driver::operator()`: hands the file `root + filename` to the first tool that
   * accepts it. The output goes to `outD` under the tool's name for `filename`, whatever
   * subdirectory the input sits in. The output's existence is noted before the tool
   * runs; a file whose launch fails is recorded as an error and NOT added to the
   * expected outputs. A file no tool accepts changes nothing.
   */
  function Dispatch(tools: seq<Tool>, outD: string, launch: string -> Launch, st: WalkState, v: Visit)
    : (r: WalkState)
    requires |v.root| > 0
    ensures |st.buckets.expected| <= |r.buckets.expected| <= |st.buckets.expected| + 1
    ensures r.buckets.expected[..|st.buckets.expected|] == st.buckets.expected
  {
    var inFile := v.root + v.name;
    match FirstMatch(tools, st.fs, inFile)
    case None => st
    case Some(i) =>
      var outFile := outD + OutFilename(tools[i].kind, v.name);
      var existed := IsFile(st.fs, outFile);
      var b := st.buckets;
      match RunIfNeeded(tools[i], launch, st.fs, inFile, outFile)
      case Failure(message) => WalkState(st.fs, b.(errors := b.errors + [ErrorLine(v.name, message)]))
      case Success((ran, fs')) =>
        var b' :=
          if !ran then b.(untouched := b.untouched + [outFile])
          else if existed then b.(updated := b.updated + [outFile])
          else b.(generated := b.generated + [outFile]);
        WalkState(fs', b'.(expected := b'.expected + [outFile]))
  }

  /** The walk's calls of the action, one after the other. */
  function DispatchAll(tools: seq<Tool>, outD: string, launch: string -> Launch, st: WalkState, visits: seq<Visit>)
    : (r: WalkState)
    requires forall v :: v in visits ==> |v.root| > 0
    ensures |st.buckets.expected| <= |r.buckets.expected| <= |st.buckets.expected| + |visits|
    ensures r.buckets.expected[..|st.buckets.expected|] == st.buckets.expected
    decreases |visits|
  {
    if visits == [] then st
    else
      var st1 := Dispatch(tools, outD, launch, st, visits[0]);
      var r := DispatchAll(tools, outD, launch, st1, visits[1..]);
      assert r.buckets.expected[..|st.buckets.expected|]
        == r.buckets.expected[..|st1.buckets.expected|][..|st.buckets.expected|];
      r
  }

  /**
   * The clean-up loop of `run`: every prior output, in order, that is not an expected
   * output is removed; those whose removal succeeds are the deleted files, the others
   * are skipped (the source only prints a diagnostic for them).
   */
  function Reconcile(fs: Node, oldFiles: seq<string>, expected: seq<string>): (r: (Node, seq<string>))
    ensures forall p :: p in r.1 ==> p in oldFiles && p !in expected
    ensures |r.1| <= |oldFiles|
    decreases |oldFiles|
  {
    if oldFiles == [] then (fs, [])
    else
      var p := oldFiles[0];
      var step: (Node, seq<string>) :=
        if p in expected then (fs, [])
        else match Remove(fs, p)
          case None => (fs, [])
          case Some(fs') => (fs', [p]);
      var rest := Reconcile(step.0, oldFiles[1..], expected);
      (rest.0, step.1 + rest.1)
  }

  /** `dir` prefixed to every name. */
  function InDir(dir: string, names: seq<string>): (r: seq<string>)
    ensures |r| == |names| && forall i :: 0 <= i < |names| ==> r[i] == dir + names[i]
  {
    seq(|names|, i requires 0 <= i < |names| => dir + names[i])
  }

  /** What a completed run leaves: the normalised directories, the lists, the report and the filesystem. */
  datatype Outcome = Outcome(inD: string, outD: string, oldFiles: seq<string>, buckets: Buckets,
                             deleted: seq<string>, report: seq<string>, walked: Node, fs: Node)

  const CannotCreateOutputDir: string := "could not create the output directory"

  /**
   * `Driver::run`. Both directories get a trailing separator; a missing output directory
   * is created, and the run fails before walking when that is impossible. The prior
   * outputs are listed before the walk, the walk is a snapshot of the input tree taken
   * at its start, and the report is built once the clean-up is over.
   */
  function Run(cfg: Config, fs: Node, launch: string -> Launch): (r: Result<Outcome, string>)
    requires |cfg.inD| > 0 && |cfg.outD| > 0
    ensures r.Failure? <==> !IsDir(fs, WithSep(cfg.outD)) && MakeDir(fs, WithSep(cfg.outD)).None?
    ensures r.Failure? ==> r.error == CannotCreateOutputDir
    ensures r.Success? ==> r.value.inD == WithSep(cfg.inD) && r.value.outD == WithSep(cfg.outD)
    ensures r.Success? ==> var o := r.value;
      o.report == Report.Lines(o.inD, o.buckets.generated, o.buckets.updated, o.buckets.untouched, o.deleted, o.buckets.errors)
  {
    var tools := Tools(cfg);
    var inD := WithSep(cfg.inD);
    var outD := WithSep(cfg.outD);
    var ready: Option<Node> := if IsDir(fs, outD) then Some(fs) else MakeDir(fs, outD);
    match ready
    case None => Failure(CannotCreateOutputDir)
    case Some(fs0) =>
      var oldFiles := InDir(outD, ListDir(fs0, outD, false));
      var visits := Walk(fs0, inD, false);
      var walked := DispatchAll(tools, outD, launch, WalkState(fs0, NoBuckets), visits);
      var b := walked.buckets;
      var (fs1, deleted) := Reconcile(walked.fs, oldFiles, b.expected);
      var report := Report.Lines(inD, b.generated, b.updated, b.untouched, deleted, b.errors);
      Success(Outcome(inD, outD, oldFiles, b, deleted, report, walked.fs, fs1))
  }
}
