/** The layout of the report: where each list, each count and the error block sit among its lines. */
module ReportProperties {
  import opened StringUtils
  import opened Report

  /** The number of lines a section takes: its items and a separator, or none. */
  function SectionSize(items: seq<string>): nat {
    if |items| == 0 then 0 else |items| + 1
  }

  /** The separator is 79 dashes. */
  lemma SeparatorShape()
    ensures |Separator| == 79 && forall i :: 0 <= i < 79 ==> Separator[i] == '-'
  {
  }

  /** A section lists its items in order behind their tag and closes with a separator; an empty list prints nothing. */
  lemma SectionShape(tag: string, items: seq<string>)
    ensures |Section(tag, items)| == SectionSize(items)
    ensures forall i :: 0 <= i < |items| ==> Section(tag, items)[i] == tag + items[i]
    ensures |items| > 0 ==> Section(tag, items)[|items|] == Separator
  {
  }

  /** The line at which the four counts start: after the header and the three sections. */
  function CountsAt(generated: seq<string>, updated: seq<string>, deleted: seq<string>): nat {
    3 + SectionSize(generated) + SectionSize(updated) + SectionSize(deleted)
  }

  /**
   * The report cut into its parts: the header naming the input directory, the
   * generated, updated and deleted sections in this order, the four counts, and
   * the error block.
   */
  lemma LinesParts(inD: string, generated: seq<string>, updated: seq<string>, untouched: seq<string>,
                   deleted: seq<string>, errors: seq<string>)
    ensures var lines := Lines(inD, generated, updated, untouched, deleted, errors);
      var a := 3 + SectionSize(generated);
      var b := a + SectionSize(updated);
      var c := CountsAt(generated, updated, deleted);
      && |lines| == c + 4 + |ErrorBlock(errors)|
      && lines[..3] == [Separator, " " + inD, Separator]
      && lines[3..a] == Section("generated: ", generated)
      && lines[a..b] == Section("updated: ", updated)
      && lines[b..c] == Section("deleted: ", deleted)
      && lines[c..c + 4] == Counts(|untouched|, |generated|, |updated|, |deleted|)
      && lines[c + 4..] == ErrorBlock(errors)
  {
    var head: seq<string> := [Separator, " " + inD, Separator];
    var s1 := Section("generated: ", generated);
    var s2 := Section("updated: ", updated);
    var s3 := Section("deleted: ", deleted);
    var counts := Counts(|untouched|, |generated|, |updated|, |deleted|);
    SectionShape("generated: ", generated);
    SectionShape("updated: ", updated);
    SectionShape("deleted: ", deleted);
    var block := ErrorBlock(errors);
    assert Lines(inD, generated, updated, untouched, deleted, errors) == head + s1 + s2 + s3 + counts + block;
    var a := 3 + SectionSize(generated);
    var b := a + SectionSize(updated);
    assert CountsAt(generated, updated, deleted) == b + |s3| && |counts| == 4;
    Slices(head, s1, s2, s3, counts, block, a, b, CountsAt(generated, updated, deleted));
  }

  /** A concatenation of six parts, sliced back into its parts. */
  lemma Slices<T>(p0: seq<T>, p1: seq<T>, p2: seq<T>, p3: seq<T>, p4: seq<T>, p5: seq<T>, a: nat, b: nat, c: nat)
    requires a == |p0| + |p1| && b == a + |p2| && c == b + |p3|
    ensures var l := p0 + p1 + p2 + p3 + p4 + p5;
      && l[..|p0|] == p0 && l[|p0|..a] == p1 && l[a..b] == p2 && l[b..c] == p3
      && l[c..c + |p4|] == p4 && l[c + |p4|..] == p5
  {
    Middle(p0, p1, p2 + p3 + p4 + p5);
    Middle(p0 + p1, p2, p3 + p4 + p5);
    Middle(p0 + p1 + p2, p3, p4 + p5);
    Middle(p0 + p1 + p2 + p3, p4, p5);
    assert p0 + p1 + p2 + p3 + p4 + p5 == (p0 + p1 + p2 + p3 + p4) + p5;
  }

  /** The middle part of a concatenation, sliced back out. */
  lemma Middle<T>(a: seq<T>, b: seq<T>, c: seq<T>)
    ensures (a + b + c)[|a|..|a| + |b|] == b && (a + b + c)[..|a|] == a && (a + (b + c)) == a + b + c
  {
  }

  /** Each section lists its files in order, behind its tag, right after the previous part. */
  lemma LinesListFiles(inD: string, generated: seq<string>, updated: seq<string>, untouched: seq<string>,
                       deleted: seq<string>, errors: seq<string>)
    ensures var lines := Lines(inD, generated, updated, untouched, deleted, errors);
      && lines[0] == Separator && lines[1] == " " + inD && lines[2] == Separator
      && (forall i :: 0 <= i < |generated| ==> lines[3 + i] == "generated: " + generated[i])
      && (forall i :: 0 <= i < |updated| ==> lines[3 + SectionSize(generated) + i] == "updated: " + updated[i])
      && (forall i :: 0 <= i < |deleted| ==>
            lines[3 + SectionSize(generated) + SectionSize(updated) + i] == "deleted: " + deleted[i])
  {
    LinesParts(inD, generated, updated, untouched, deleted, errors);
    ListingAt(Lines(inD, generated, updated, untouched, deleted, errors), inD, generated, updated, deleted);
  }

  /** Lines that open with the header and the three sections carry every listed file at its place. */
  lemma ListingAt(lines: seq<string>, inD: string, generated: seq<string>, updated: seq<string>, deleted: seq<string>)
    requires var a := 3 + SectionSize(generated);
      var b := a + SectionSize(updated);
      var c := b + SectionSize(deleted);
      && c <= |lines| && lines[..3] == [Separator, " " + inD, Separator]
      && lines[3..a] == Section("generated: ", generated)
      && lines[a..b] == Section("updated: ", updated)
      && lines[b..c] == Section("deleted: ", deleted)
    ensures lines[0] == Separator && lines[1] == " " + inD && lines[2] == Separator
    ensures forall i :: 0 <= i < |generated| ==> lines[3 + i] == "generated: " + generated[i]
    ensures forall i :: 0 <= i < |updated| ==> lines[3 + SectionSize(generated) + i] == "updated: " + updated[i]
    ensures forall i :: 0 <= i < |deleted| ==>
      lines[3 + SectionSize(generated) + SectionSize(updated) + i] == "deleted: " + deleted[i]
  {
    var a := 3 + SectionSize(generated);
    var b := a + SectionSize(updated);
    assert lines[0] == Separator && lines[1] == " " + inD && lines[2] == Separator by {
      assert lines[..3][0] == lines[0] && lines[..3][1] == lines[1] && lines[..3][2] == lines[2];
    }
    SectionAt(lines, 3, "generated: ", generated);
    SectionAt(lines, a, "updated: ", updated);
    SectionAt(lines, b, "deleted: ", deleted);
  }

  /** A section found at line `k` puts its `i`-th item at line `k + i`. */
  lemma SectionAt(lines: seq<string>, k: nat, tag: string, items: seq<string>)
    requires k + SectionSize(items) <= |lines| && lines[k..k + SectionSize(items)] == Section(tag, items)
    ensures forall i :: 0 <= i < |items| ==> lines[k + i] == tag + items[i]
  {
    SectionShape(tag, items);
    forall i | 0 <= i < |items| ensures lines[k + i] == tag + items[i] {
      assert lines[k..k + SectionSize(items)][i] == lines[k + i];
    }
  }

  /** The four counts always follow, in the order up-to-date, generated, updated, deleted. */
  lemma LinesCounts(inD: string, generated: seq<string>, updated: seq<string>, untouched: seq<string>,
                    deleted: seq<string>, errors: seq<string>)
    ensures var lines := Lines(inD, generated, updated, untouched, deleted, errors);
      var c := CountsAt(generated, updated, deleted);
      && c + 4 <= |lines|
      && lines[c] == NatToString(|untouched|) + UpToDateText
      && lines[c + 1] == NatToString(|generated|) + GeneratedText
      && lines[c + 2] == NatToString(|updated|) + UpdatedText
      && lines[c + 3] == NatToString(|deleted|) + DeletedText
  {
    var lines := Lines(inD, generated, updated, untouched, deleted, errors);
    var c := CountsAt(generated, updated, deleted);
    LinesParts(inD, generated, updated, untouched, deleted, errors);
    var counts := lines[c..c + 4];
    assert counts[0] == lines[c] && counts[1] == lines[c + 1] && counts[2] == lines[c + 2] && counts[3] == lines[c + 3];
  }

  /** The report ends with the counts when no file failed, and with the error block listing every failure otherwise. */
  lemma LinesErrorBlock(inD: string, generated: seq<string>, updated: seq<string>, untouched: seq<string>,
                        deleted: seq<string>, errors: seq<string>)
    ensures var lines := Lines(inD, generated, updated, untouched, deleted, errors);
      var c := CountsAt(generated, updated, deleted);
      && (|errors| == 0 ==> |lines| == c + 4)
      && (|errors| > 0 ==>
            && |lines| == c + 6 + |errors|
            && lines[c + 4] == Separator && lines[c + 5] == ErrorHeading
            && forall i :: 0 <= i < |errors| ==> lines[c + 6 + i] == errors[i])
  {
    var lines := Lines(inD, generated, updated, untouched, deleted, errors);
    var c := CountsAt(generated, updated, deleted);
    LinesParts(inD, generated, updated, untouched, deleted, errors);
    ErrorBlockAt(lines, c + 4, errors);
  }

  /** An error block found from line `k` to the end is empty when no file failed, and otherwise opens with a separator and the heading and then lists every failure. */
  lemma ErrorBlockAt(lines: seq<string>, k: nat, errors: seq<string>)
    requires k <= |lines| && lines[k..] == ErrorBlock(errors)
    ensures |errors| == 0 ==> |lines| == k
    ensures |errors| > 0 ==>
      && |lines| == k + 2 + |errors|
      && lines[k] == Separator && lines[k + 1] == ErrorHeading
      && forall i :: 0 <= i < |errors| ==> lines[k + 2 + i] == errors[i]
  {
    var block := lines[k..];
    if |errors| > 0 {
      assert block[0] == lines[k] && block[1] == lines[k + 1];
      forall i | 0 <= i < |errors| ensures lines[k + 2 + i] == errors[i] {
        assert block[2 + i] == lines[k + 2 + i];
      }
    }
  }

  /** The number at the head of a count line reads back as the count printed. */
  lemma CountLineReadsBack(n: nat, text: string)
    ensures var line := NatToString(n) + text; var k := |NatToString(n)|;
      && k <= |line| && (forall i :: 0 <= i < k ==> IsDigit(line[i]))
      && ParseNat(line[..k]) == n && line[k..] == text
  {
    var line := NatToString(n) + text;
    assert line[..|NatToString(n)|] == NatToString(n);
    ParseNatToString(n);
  }
}
