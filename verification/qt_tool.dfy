/**
 * QtTool.h / QtTool.cpp: the generator tool abstraction and its three variants
 * (moc, uic, rcc). The class hierarchy becomes a tag `Kind`; a tool's state is
 * its quoted executable path and its extra command-line options.
 */
module QtTool {
  import opened Wrappers
  import opened StringUtils
  import opened FileSystem
  import opened FileUtils

  datatype Kind = Moc | Uic | Rcc

  /** A tool object: its variant, `exePath_` and `cmdOpts_`. */
  datatype Tool = Tool(kind: Kind, exePath: string, cmdOpts: string)

  /** A freshly constructed tool: both strings empty. */
  function NewTool(kind: Kind): Tool {
    Tool(kind, "", "")
  }

  /** The executable name each variant appends to the Qt bin directory (POSIX names). */
  function ExeName(kind: Kind): string {
    match kind
    case Moc => "moc"
    case Uic => "uic"
    case Rcc => "rcc"
  }

  /** `exePath(qtBinPath)` of each variant. */
  function ExePath(kind: Kind, qtBinPath: string): string {
    qtBinPath + ExeName(kind)
  }

  /**
   * `init`: recomputes the executable path from `qtBinPath` and wraps it in double
   * quotes when it contains a space; the options are left alone.
   */
  function Init(t: Tool, qtBinPath: string): (r: Tool)
    ensures r.kind == t.kind && r.cmdOpts == t.cmdOpts
    ensures var raw := ExePath(t.kind, qtBinPath);
      if ' ' in raw then
        |r.exePath| == |raw| + 2 && r.exePath[0] == '"' && Last(r.exePath) == '"'
        && r.exePath[1..|r.exePath| - 1] == raw
      else r.exePath == raw
  {
    var raw := ExePath(t.kind, qtBinPath);
    var quoted := if ' ' in raw then "\"" + raw + "\"" else raw;
    assert ' ' in raw ==> quoted[1..|quoted| - 1] == raw;
    t.(exePath := quoted)
  }

  /** `init` depends only on its argument, never on the path stored before, so repeating it changes nothing. */
  lemma InitIdempotent(t: Tool, qtBinPath: string)
    ensures Init(Init(t, qtBinPath), qtBinPath) == Init(t, qtBinPath)
  {
  }

  /** `setCmdOpts`: stores the options verbatim and touches nothing else. */
  function SetCmdOpts(t: Tool, cmdOpts: string): (r: Tool)
    ensures r.cmdOpts == cmdOpts && r.kind == t.kind && r.exePath == t.exePath
  {
    t.(cmdOpts := cmdOpts)
  }

  const MocMarker: string := "Q_OBJECT"

  /** The header-suffix test of `QtMocTool::isFileInput`, made with `endsWith` on the whole path. */
  predicate HasHeaderSuffix(inFile: string) {
    EndsWith(inFile, ".h") || EndsWith(inFile, ".hpp") || EndsWith(inFile, ".hh") || EndsWith(inFile, ".hxx")
  }

  /** The line loop of `QtMocTool::isFileInput`: stops at the first line containing Q_OBJECT. */
  function HasMarkerLine(lines: seq<string>): (r: bool)
    ensures r <==> exists i :: 0 <= i < |lines| && Contains(lines[i], MocMarker)
  {
    if lines == [] then false
    else if Contains(lines[0], MocMarker) then true
    else
      assert forall i :: 1 <= i < |lines| ==> lines[i] == lines[1..][i - 1];
      HasMarkerLine(lines[1..])
  }

  /**
   * `isFileInput` of each variant. Moc needs a header suffix and a line containing
   * Q_OBJECT (a file that cannot be read has no lines); uic and rcc test the suffix only.
   */
  predicate IsFileInput(kind: Kind, fs: Node, inFile: string): (r: bool)
    ensures r && kind == Moc ==> IsFile(fs, inFile)
    ensures r && kind == Uic ==> IsSuffix(".ui", inFile)
    ensures r && kind == Rcc ==> IsSuffix(".qrc", inFile)
  {
    match kind
    case Moc => HasHeaderSuffix(inFile) && HasMarkerLine(ReadLines(fs, inFile))
    case Uic => EndsWith(inFile, ".ui")
    case Rcc => EndsWith(inFile, ".qrc")
  }

  /** The prefix and suffix `getOutFilename` puts around the base name. */
  function OutPrefix(kind: Kind): string {
    match kind
    case Moc => "mo_"
    case Uic => "ui_"
    case Rcc => "rc_"
  }

  function OutSuffix(kind: Kind): string {
    match kind
    case Moc => ".cc"
    case Uic => ".h"
    case Rcc => ".cc"
  }

  /** `getOutFilename`: the output name built from the input name without its extension. */
  function OutFilename(kind: Kind, inFilename: string): (r: string)
    ensures IsPrefix(OutPrefix(kind), r) && IsSuffix(OutSuffix(kind), r)
    ensures |r| == |OutPrefix(kind)| + |SplitExt(inFilename).0| + |OutSuffix(kind)|
    ensures r[|OutPrefix(kind)|..|r| - |OutSuffix(kind)|] == SplitExt(inFilename).0
  {
    var r := OutPrefix(kind) + SplitExt(inFilename).0 + OutSuffix(kind);
    assert r[|OutPrefix(kind)|..|r| - |OutSuffix(kind)|] == SplitExt(inFilename).0;
    r
  }

  /**
   * `QtTool::needsToRun`: nothing to do without an input file; an output that is
   * not a regular file must be made; otherwise the input must be strictly newer.
   */
  predicate DefaultNeedsToRun(fs: Node, inFile: string, outFile: string): (r: bool)
    ensures r <==> IsFile(fs, inFile) && (IsFile(fs, outFile) ==> MTime(fs, inFile) > MTime(fs, outFile))
  {
    if !IsFile(fs, inFile) then false
    else if !IsFile(fs, outFile) then true
    else MTime(fs, inFile) > MTime(fs, outFile)
  }

  const FileOpenTag: string := "<file>"
  const FileCloseTag: string := "</file>"

  /**
   * The resource one `.qrc` line names: the text between its first `<file>` and the
   * next `</file>`, not trimmed; none when either tag is missing or the text is empty.
   */
  function ManifestEntry(line: string): (r: Option<string>)
    ensures r.Some? ==> |r.value| > 0 && !Contains(r.value, FileCloseTag)
    ensures r.Some? ==> Contains(line, FileOpenTag + r.value + FileCloseTag)
    ensures !Contains(line, FileOpenTag) ==> r.None?
  {
    match Find(line, FileOpenTag)
    case None => None
    case Some(pos) =>
      var rest := line[pos + |FileOpenTag|..];
      match Find(rest, FileCloseTag)
      case None => None
      case Some(end) =>
        var fn := rest[..end];
        if |fn| == 0 then None
        else
          TaggedEntry(line, pos, rest, end);
          Some(fn)
  }

  /** The text before the first closing tag after an opening tag holds no closing tag and sits between the two tags. */
  lemma TaggedEntry(line: string, pos: nat, rest: string, end: nat)
    requires OccursAt(line, FileOpenTag, pos) && rest == line[pos + |FileOpenTag|..]
    requires OccursAt(rest, FileCloseTag, end) && forall j: nat :: j < end ==> !OccursAt(rest, FileCloseTag, j)
    ensures !Occurs(rest[..end], FileCloseTag)
    ensures OccursAt(line, FileOpenTag + rest[..end] + FileCloseTag, pos)
  {
    var fn := rest[..end];
    forall j: nat | OccursAt(fn, FileCloseTag, j) ensures false {
      assert OccursAt(rest, FileCloseTag, j);
    }
    assert rest[..end + |FileCloseTag|] == fn + FileCloseTag;
    assert line[pos..pos + |FileOpenTag| + |fn| + |FileCloseTag|]
      == line[pos..pos + |FileOpenTag|] + rest[..end + |FileCloseTag|];
  }

  /**
   * The line loop of `QtRccTool::needsToRun`: stops at the first named resource for
   * which the default rule, against the same output, says the output must be made.
   */
  function ScanManifest(fs: Node, baseDir: string, lines: seq<string>, outFile: string): (r: bool)
    ensures r <==> exists i ::
      0 <= i < |lines| && ManifestEntry(lines[i]).Some?
      && DefaultNeedsToRun(fs, baseDir + ManifestEntry(lines[i]).value, outFile)
  {
    if lines == [] then false
    else
      var hit := match ManifestEntry(lines[0])
        case None => false
        case Some(fn) => DefaultNeedsToRun(fs, baseDir + fn, outFile);
      if hit then true
      else
        assert forall i :: 1 <= i < |lines| ==> lines[i] == lines[1..][i - 1];
        ScanManifest(fs, baseDir, lines[1..], outFile)
  }

  /** `QtRccTool::needsToRun`: the default rule for the manifest itself, then for each resource it names. */
  predicate RccNeedsToRun(fs: Node, inFile: string, outFile: string): (r: bool)
    requires |inFile| > 0
    ensures DefaultNeedsToRun(fs, inFile, outFile) ==> r
    ensures r ==> IsFile(fs, inFile)
  {
    DefaultNeedsToRun(fs, inFile, outFile)
    || ScanManifest(fs, ParentDir(inFile), ReadLines(fs, inFile), outFile)
  }

  /** `needsToRun` as dispatched: only the rcc variant overrides the default rule. */
  predicate NeedsToRun(kind: Kind, fs: Node, inFile: string, outFile: string): (r: bool)
    requires |inFile| > 0
    ensures DefaultNeedsToRun(fs, inFile, outFile) ==> r
    ensures r ==> IsFile(fs, inFile)
  {
    match kind
    case Rcc => RccNeedsToRun(fs, inFile, outFile)
    case _ => DefaultNeedsToRun(fs, inFile, outFile)
  }

  /** The command line `runIfNeeded` composes: `exePath_ [cmdOpts_] -o outFile inFile`. */
  function CommandLine(t: Tool, inFile: string, outFile: string): (r: string)
    ensures IsPrefix(t.exePath, r) && IsSuffix(" -o " + outFile + " " + inFile, r)
  {
    t.exePath + (if |t.cmdOpts| > 0 then " " + t.cmdOpts else "") + " -o " + outFile + " " + inFile
  }

  /** What the output written by a generator looks like. */
  datatype Generated = Generated(mtime: int, lines: seq<string>)

  /**
   * What launching a command line does: either the process cannot be started, or it
   * runs to its end, leaving an output file behind or not. Its exit status is not
   * observed, as the driver never looks at it.
   */
  datatype Launch = CannotStart | Exited(output: Option<Generated>)

  /** The filesystem after a launch that ran. */
  function AfterLaunch(fs: Node, outFile: string, output: Option<Generated>): Node {
    match output
    case None => fs
    case Some(g) => WriteFile(fs, outFile, g.mtime, g.lines)
  }

  const CannotStartProcess: string := "cannot start process"

  /**
   * `runIfNeeded`: when the output must be made, launches the tool's command line;
   * the result says whether it ran, together with the filesystem afterwards. A
   * launch that fails is the `runtime_error("cannot start process")` of the source.
   */
  function RunIfNeeded(t: Tool, launch: string -> Launch, fs: Node, inFile: string, outFile: string)
    : (r: Result<(bool, Node), string>)
    requires |inFile| > 0
    ensures r.Success? ==> (r.value.0 <==> NeedsToRun(t.kind, fs, inFile, outFile))
    ensures r.Success? && !r.value.0 ==> r.value.1 == fs
    ensures r.Failure? <==> NeedsToRun(t.kind, fs, inFile, outFile) && launch(CommandLine(t, inFile, outFile)).CannotStart?
    ensures r.Failure? ==> r.error == CannotStartProcess
  {
    if NeedsToRun(t.kind, fs, inFile, outFile) then
      match launch(CommandLine(t, inFile, outFile))
      case CannotStart => Failure(CannotStartProcess)
      case Exited(output) => Success((true, AfterLaunch(fs, outFile, output)))
    else Success((false, fs))
  }
}
