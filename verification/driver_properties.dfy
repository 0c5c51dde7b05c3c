/** What the driver promises: first-match dispatch, one bucket per handled file, and a quiet run when nothing is stale. */
module DriverProperties {
  import opened Wrappers
  import opened StringUtils
  import opened FileSystem
  import opened FileUtils
  import opened QtTool
  import opened Driver

  /** The tools are tried in the order moc, uic, rcc, and the first that accepts the path takes it. */
  lemma ToolChoice(cfg: Config, fs: Node, inFile: string)
    ensures var m := FirstMatch(Tools(cfg), fs, inFile);
      && (m == Some(0) <==> IsFileInput(Moc, fs, inFile))
      && (m == Some(1) <==> !IsFileInput(Moc, fs, inFile) && IsFileInput(Uic, fs, inFile))
      && (m == Some(2) <==> !IsFileInput(Moc, fs, inFile) && !IsFileInput(Uic, fs, inFile) && IsFileInput(Rcc, fs, inFile))
      && (m == None <==> !IsFileInput(Moc, fs, inFile) && !IsFileInput(Uic, fs, inFile) && !IsFileInput(Rcc, fs, inFile))
  {
    var tools := Tools(cfg);
    var m := FirstMatch(tools, fs, inFile);
    if m.Some? {
      assert m.value == 0 || m.value == 1 || m.value == 2;
    }
  }

  /** A file no tool accepts changes nothing: no list grows and no output is written. */
  lemma DispatchUnmatched(tools: seq<Tool>, outD: string, launch: string -> Launch, st: WalkState, v: Visit)
    requires |v.root| > 0 && FirstMatch(tools, st.fs, v.root + v.name).None?
    ensures Dispatch(tools, outD, launch, st, v) == st
  {
  }

  /** `ys` is `xs` with possibly more entries appended. */
  predicate Extends<T(==)>(xs: seq<T>, ys: seq<T>) {
    |xs| <= |ys| && ys[..|xs|] == xs
  }

  /** The number of entries in the four classification lists. */
  function Total(b: Buckets): nat {
    |b.generated| + |b.updated| + |b.untouched| + |b.errors|
  }

  /** Every list of `b'` extends the same list of `b`. */
  predicate Grown(b: Buckets, b': Buckets) {
    && Extends(b.expected, b'.expected) && Extends(b.generated, b'.generated) && Extends(b.updated, b'.updated)
    && Extends(b.untouched, b'.untouched) && Extends(b.errors, b'.errors)
  }

  /**
   * A file some tool accepts adds exactly one entry to exactly one list: `updated` when
   * the tool ran and the output existed before, `generated` when it ran and did not,
   * `untouched` when it did not run, and `errors` when it failed. The output path joins
   * the expected outputs exactly when the tool did not fail.
   */
  lemma DispatchOneBucket(tools: seq<Tool>, outD: string, launch: string -> Launch, st: WalkState, v: Visit)
    requires |v.root| > 0 && FirstMatch(tools, st.fs, v.root + v.name).Some?
    ensures var i := FirstMatch(tools, st.fs, v.root + v.name).value;
      var inFile := v.root + v.name;
      var outFile := outD + OutFilename(tools[i].kind, v.name);
      var r := RunIfNeeded(tools[i], launch, st.fs, inFile, outFile);
      var b, b' := st.buckets, Dispatch(tools, outD, launch, st, v).buckets;
      && Grown(b, b') && Total(b') == Total(b) + 1
      && (b'.generated != b.generated <==> r.Success? && r.value.0 && !IsFile(st.fs, outFile))
      && (b'.updated != b.updated <==> r.Success? && r.value.0 && IsFile(st.fs, outFile))
      && (b'.untouched != b.untouched <==> r.Success? && !r.value.0)
      && (b'.errors != b.errors <==> r.Failure?)
      && (r.Success? ==> b'.expected == b.expected + [outFile])
      && (r.Failure? ==> b'.expected == b.expected && Last(b'.errors) == ErrorLine(v.name, r.error))
  {
    var i := FirstMatch(tools, st.fs, v.root + v.name).value;
    var inFile := v.root + v.name;
    var outFile := outD + OutFilename(tools[i].kind, v.name);
    var b := st.buckets;
    var b' := Dispatch(tools, outD, launch, st, v).buckets;
    match RunIfNeeded(tools[i], launch, st.fs, inFile, outFile)
    case Failure(message) =>
      assert b' == b.(errors := b.errors + [ErrorLine(v.name, message)]);
      assert b'.errors[..|b.errors|] == b.errors;
      GrownReflexive(b);
    case Success((ran, _)) =>
      assert b'.expected == b.expected + [outFile];
      assert b'.expected[..|b.expected|] == b.expected;
      if !ran {
        assert b'.untouched[..|b.untouched|] == b.untouched;
      } else if IsFile(st.fs, outFile) {
        assert b'.updated[..|b.updated|] == b.updated;
      } else {
        assert b'.generated[..|b.generated|] == b.generated;
      }
      GrownReflexive(b);
  }

  /** Each output path in the expected list was recorded in exactly one of generated, updated and untouched. */
  ghost predicate Partitioned(b: Buckets) {
    multiset(b.expected) == multiset(b.generated) + multiset(b.updated) + multiset(b.untouched)
  }

  /** What one call of the action does to the lists, as the walk-wide invariant needs it. */
  lemma DispatchStep(tools: seq<Tool>, outD: string, launch: string -> Launch, st: WalkState, v: Visit)
    requires |v.root| > 0 && Partitioned(st.buckets)
    ensures var b, b1 := st.buckets, Dispatch(tools, outD, launch, st, v).buckets;
      && Grown(b, b1) && Partitioned(b1)
      && Total(b1) - Total(b) == (|b1.expected| - |b.expected|) + (|b1.errors| - |b.errors|)
      && Total(b1) <= Total(b) + 1
  {
    var b := st.buckets;
    match FirstMatch(tools, st.fs, v.root + v.name) {
      case None =>
        DispatchUnmatched(tools, outD, launch, st, v);
        GrownReflexive(b);
      case Some(i) =>
        DispatchOneBucket(tools, outD, launch, st, v);
        var inFile := v.root + v.name;
        var outFile := outD + OutFilename(tools[i].kind, v.name);
        var b1 := Dispatch(tools, outD, launch, st, v).buckets;
        match RunIfNeeded(tools[i], launch, st.fs, inFile, outFile)
        case Failure(_) =>
          assert b1 == b.(errors := b1.errors);
        case Success((ran, _)) =>
          PartitionedAdd(b, b1, outFile);
    }
  }

  /** Recording an output path in the expected list and in one of the three classification lists keeps the partition. */
  lemma PartitionedAdd(b: Buckets, b1: Buckets, x: string)
    requires Partitioned(b) && b1.expected == b.expected + [x]
    requires || b1 == b.(expected := b1.expected, generated := b.generated + [x])
             || b1 == b.(expected := b1.expected, updated := b.updated + [x])
             || b1 == b.(expected := b1.expected, untouched := b.untouched + [x])
    ensures Partitioned(b1)
  {
  }

  lemma GrownReflexive(b: Buckets)
    ensures Grown(b, b)
  {
    assert b.expected[..|b.expected|] == b.expected && b.errors[..|b.errors|] == b.errors;
    assert b.generated[..|b.generated|] == b.generated && b.updated[..|b.updated|] == b.updated;
    assert b.untouched[..|b.untouched|] == b.untouched;
  }

  lemma GrownTransitive(b0: Buckets, b1: Buckets, b2: Buckets)
    requires Grown(b0, b1) && Grown(b1, b2)
    ensures Grown(b0, b2)
  {
    ExtendsTransitive(b0.expected, b1.expected, b2.expected);
    ExtendsTransitive(b0.generated, b1.generated, b2.generated);
    ExtendsTransitive(b0.updated, b1.updated, b2.updated);
    ExtendsTransitive(b0.untouched, b1.untouched, b2.untouched);
    ExtendsTransitive(b0.errors, b1.errors, b2.errors);
  }

  /**
   * Over the whole walk every list only grows, the expected outputs stay the union of
   * the generated, updated and untouched ones, and the four classification lists grow
   * by at most one entry per call.
   */
  lemma {:induction false} DispatchAllPartition(tools: seq<Tool>, outD: string, launch: string -> Launch,
                                                st: WalkState, visits: seq<Visit>)
    requires forall v :: v in visits ==> |v.root| > 0
    requires Partitioned(st.buckets)
    ensures var b, b' := st.buckets, DispatchAll(tools, outD, launch, st, visits).buckets;
      && Grown(b, b') && Partitioned(b')
      && Total(b') - Total(b) == (|b'.expected| - |b.expected|) + (|b'.errors| - |b.errors|)
      && Total(b') <= Total(b) + |visits|
    decreases |visits|
  {
    if visits == [] {
      GrownReflexive(st.buckets);
    } else {
      var st1 := Dispatch(tools, outD, launch, st, visits[0]);
      DispatchStep(tools, outD, launch, st, visits[0]);
      assert forall w :: w in visits[1..] ==> w in visits;
      DispatchAllPartition(tools, outD, launch, st1, visits[1..]);
      GrownTransitive(st.buckets, st1.buckets, DispatchAll(tools, outD, launch, st1, visits[1..]).buckets);
    }
  }

  /** `p` is the output one of the tools makes, in `outD`, for a file called `name`. */
  predicate OutputOf(outD: string, p: string, name: string) {
    p == outD + OutFilename(Moc, name) || p == outD + OutFilename(Uic, name) || p == outD + OutFilename(Rcc, name)
  }

  /** `p` is the output of one of the visited files. */
  ghost predicate OutputOfVisit(outD: string, p: string, visits: seq<Visit>) {
    exists j :: 0 <= j < |visits| && OutputOf(outD, p, visits[j].name)
  }

  /** One call of the action expects at most the output of the file it visits. */
  lemma DispatchExpectedStep(tools: seq<Tool>, outD: string, launch: string -> Launch, st: WalkState, v: Visit)
    requires |v.root| > 0
    ensures var e, e1 := st.buckets.expected, Dispatch(tools, outD, launch, st, v).buckets.expected;
      Extends(e, e1) && forall p :: p in e1[|e|..] ==> OutputOf(outD, p, v.name)
  {
    var e := st.buckets.expected;
    assert e[..|e|] == e;
    match FirstMatch(tools, st.fs, v.root + v.name) {
      case None =>
        DispatchUnmatched(tools, outD, launch, st, v);
      case Some(i) =>
        DispatchOneBucket(tools, outD, launch, st, v);
        var outFile := outD + OutFilename(tools[i].kind, v.name);
        var e1 := Dispatch(tools, outD, launch, st, v).buckets.expected;
        assert e1 == e || e1 == e + [outFile];
        if e1 != e {
          assert e1[|e|..] == [outFile];
        }
    }
  }

  /** The outputs of the first visit and of the later ones are outputs of the whole walk. */
  lemma OutputOfVisitCons(outD: string, p: string, visits: seq<Visit>)
    requires |visits| > 0
    requires OutputOf(outD, p, visits[0].name) || OutputOfVisit(outD, p, visits[1..])
    ensures OutputOfVisit(outD, p, visits)
  {
    if !OutputOf(outD, p, visits[0].name) {
      var j :| 0 <= j < |visits[1..]| && OutputOf(outD, p, visits[1..][j].name);
      assert visits[1..][j] == visits[j + 1];
    }
  }

  /** Every output the walk adds to the expected list is `outD` plus the output name of some visited file. */
  lemma {:induction false} DispatchAllOutputs(tools: seq<Tool>, outD: string, launch: string -> Launch,
                                              st: WalkState, visits: seq<Visit>)
    requires forall v :: v in visits ==> |v.root| > 0
    ensures var e, e' := st.buckets.expected, DispatchAll(tools, outD, launch, st, visits).buckets.expected;
      Extends(e, e') && forall p :: p in e'[|e|..] ==> OutputOfVisit(outD, p, visits)
    decreases |visits|
  {
    var e := st.buckets.expected;
    if visits == [] {
      assert e[..|e|] == e;
    } else {
      var st1 := Dispatch(tools, outD, launch, st, visits[0]);
      var e1 := st1.buckets.expected;
      DispatchExpectedStep(tools, outD, launch, st, visits[0]);
      assert forall w :: w in visits[1..] ==> w in visits;
      DispatchAllOutputs(tools, outD, launch, st1, visits[1..]);
      CombineOutputs(outD, e, e1, DispatchAll(tools, outD, launch, st1, visits[1..]).buckets.expected, visits);
    }
  }

  /** The outputs added by the first visit, then by the later ones, are outputs of the whole walk. */
  lemma CombineOutputs(outD: string, e: seq<string>, e1: seq<string>, e': seq<string>, visits: seq<Visit>)
    requires |visits| > 0 && Extends(e, e1) && Extends(e1, e')
    requires forall p :: p in e1[|e|..] ==> OutputOf(outD, p, visits[0].name)
    requires forall p :: p in e'[|e1|..] ==> OutputOfVisit(outD, p, visits[1..])
    ensures Extends(e, e') && forall p :: p in e'[|e|..] ==> OutputOfVisit(outD, p, visits)
  {
    ExtendsTransitive(e, e1, e');
    assert e'[|e|..] == e1[|e|..] + e'[|e1|..];
    forall p | p in e'[|e|..] ensures OutputOfVisit(outD, p, visits) {
      OutputOfVisitCons(outD, p, visits);
    }
  }

  lemma ExtendsTransitive<T>(xs: seq<T>, ys: seq<T>, zs: seq<T>)
    requires Extends(xs, ys) && Extends(ys, zs)
    ensures Extends(xs, zs)
  {
    assert zs[..|xs|] == zs[..|ys|][..|xs|];
  }

  /** The visit's tool, if any, finds its output up to date in `fs`. */
  predicate Fresh(tools: seq<Tool>, outD: string, fs: Node, v: Visit)
    requires |v.root| > 0
  {
    match FirstMatch(tools, fs, v.root + v.name)
    case None => true
    case Some(i) => !NeedsToRun(tools[i].kind, fs, v.root + v.name, outD + OutFilename(tools[i].kind, v.name))
  }

  /** One fresh file: nothing is written and the file's output is recorded as untouched, or nothing happens. */
  lemma DispatchFresh(tools: seq<Tool>, outD: string, launch: string -> Launch, st: WalkState, v: Visit)
    requires |v.root| > 0 && Fresh(tools, outD, st.fs, v)
    ensures var st1 := Dispatch(tools, outD, launch, st, v);
      var b, b1 := st.buckets, st1.buckets;
      && st1.fs == st.fs
      && b1.generated == b.generated && b1.updated == b.updated && b1.errors == b.errors
      && Extends(b.untouched, b1.untouched)
      && b1.expected == b.expected + b1.untouched[|b.untouched|..]
  {
    var b, b1 := st.buckets, Dispatch(tools, outD, launch, st, v).buckets;
    match FirstMatch(tools, st.fs, v.root + v.name)
    case None =>
      assert b.untouched[..|b.untouched|] == b.untouched;
    case Some(i) =>
      assert b1.untouched[|b.untouched|..] == [outD + OutFilename(tools[i].kind, v.name)];
  }

  lemma AppendSteps<T>(e0: seq<T>, u0: seq<T>, e1: seq<T>, u1: seq<T>, e2: seq<T>, u2: seq<T>)
    requires Extends(u0, u1) && e1 == e0 + u1[|u0|..]
    requires Extends(u1, u2) && e2 == e1 + u2[|u1|..]
    ensures Extends(u0, u2) && e2 == e0 + u2[|u0|..]
  {
    ExtendsTransitive(u0, u1, u2);
    assert u2[|u0|..] == u1[|u0|..] + u2[|u1|..];
  }

  /**
   * A run over an up-to-date tree is quiet: nothing is launched (the launcher does not
   * matter), the filesystem is left as it was, and every handled file is untouched.
   */
  lemma {:induction false} QuietWhenFresh(tools: seq<Tool>, outD: string, launch: string -> Launch,
                                          st: WalkState, visits: seq<Visit>)
    requires forall v :: v in visits ==> |v.root| > 0
    requires forall v :: v in visits ==> Fresh(tools, outD, st.fs, v)
    ensures var r := DispatchAll(tools, outD, launch, st, visits);
      && r.fs == st.fs
      && r.buckets.generated == st.buckets.generated && r.buckets.updated == st.buckets.updated
      && r.buckets.errors == st.buckets.errors
      && Extends(st.buckets.untouched, r.buckets.untouched)
      && r.buckets.expected == st.buckets.expected + r.buckets.untouched[|st.buckets.untouched|..]
    decreases |visits|
  {
    if visits == [] {
      assert st.buckets.untouched[..|st.buckets.untouched|] == st.buckets.untouched;
    } else {
      var v := visits[0];
      var st1 := Dispatch(tools, outD, launch, st, v);
      DispatchFresh(tools, outD, launch, st, v);
      assert forall w :: w in visits[1..] ==> w in visits;
      QuietWhenFresh(tools, outD, launch, st1, visits[1..]);
      var r := DispatchAll(tools, outD, launch, st1, visits[1..]);
      AppendSteps(st.buckets.expected, st.buckets.untouched, st1.buckets.expected, st1.buckets.untouched,
                  r.buckets.expected, r.buckets.untouched);
    }
  }
}
