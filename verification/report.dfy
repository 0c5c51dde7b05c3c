/** The summary `Driver::run` prints once the walk and the clean-up are over (main.cpp). */
module Report {
  import opened FileSystem

  /** `std::string(n, c)`: `n` copies of `c`. */
  function Repeat(c: char, n: nat): (r: string)
    ensures |r| == n && forall i :: 0 <= i < n ==> r[i] == c
  {
    if n == 0 then [] else Repeat(c, n - 1) + [c]
  }

  const SeparatorWidth: nat := 79

  /** `string sep (79, '-')`. */
  const Separator: string := Repeat('-', SeparatorWidth)

  function DigitChar(d: nat): char
    requires d < 10
  {
    "0123456789"[d]
  }

  predicate IsDigit(c: char) {
    '0' <= c <= '9'
  }

  /** A count as `operator<<` prints it: decimal, no leading zero. */
  function NatToString(n: nat): (r: string)
    ensures |r| > 0 && forall i :: 0 <= i < |r| ==> IsDigit(r[i])
    ensures r[0] == '0' ==> r == "0"
    decreases n
  {
    if n < 10 then [DigitChar(n)]
    else NatToString(n / 10) + [DigitChar(n % 10)]
  }

  /** The value of a string of decimal digits. */
  function ParseNat(s: string): nat
    requires forall i :: 0 <= i < |s| ==> IsDigit(s[i])
  {
    if s == [] then 0
    else
      assert IsDigit(s[|s| - 1]);
      ParseNat(s[..|s| - 1]) * 10 + (Last(s) as int - '0' as int)
  }

  /** Reading a printed count back gives the count. */
  lemma {:induction false} ParseNatToString(n: nat)
    ensures ParseNat(NatToString(n)) == n
    decreases n
  {
    if n >= 10 {
      var s := NatToString(n);
      ParseNatToString(n / 10);
      assert s[..|s| - 1] == NatToString(n / 10);
    }
  }

  /** Each item on its own line after `tag`. */
  function Labelled(tag: string, items: seq<string>): (r: seq<string>)
    ensures |r| == |items|
    ensures forall i :: 0 <= i < |items| ==> r[i] == tag + items[i]
  {
    seq(|items|, i requires 0 <= i < |items| => tag + items[i])
  }

  /** A section: the labelled items then a separator, or nothing at all for no items. */
  function Section(tag: string, items: seq<string>): seq<string> {
    if |items| == 0 then [] else Labelled(tag, items) + [Separator]
  }

  const UpToDateText: string := " file(s) were already up-to-date"
  const GeneratedText: string := " file(s) have been generated"
  const UpdatedText: string := " file(s) have been updated"
  const DeletedText: string := " file(s) have been deleted"
  const ErrorHeading: string := "error occured when processing the following file(s):"

  /** The four count lines, always printed, in this order. */
  function Counts(untouched: nat, generated: nat, updated: nat, deleted: nat): seq<string> {
    [ NatToString(untouched) + UpToDateText,
      NatToString(generated) + GeneratedText,
      NatToString(updated) + UpdatedText,
      NatToString(deleted) + DeletedText ]
  }

  /** The error block: printed only when some file failed. */
  function ErrorBlock(errors: seq<string>): seq<string> {
    if |errors| == 0 then [] else [Separator, ErrorHeading] + errors
  }

  /** The lines of the report, in the order they are printed. */
  function Lines(inD: string, generated: seq<string>, updated: seq<string>, untouched: seq<string>,
                 deleted: seq<string>, errors: seq<string>): (r: seq<string>)
    ensures |r| >= 7
    ensures errors == [] ==> r[|r| - 1] == NatToString(|deleted|) + DeletedText
    ensures errors != [] ==> r[|r| - 1] == errors[|errors| - 1]
  {
    [Separator, " " + inD, Separator]
    + Section("generated: ", generated)
    + Section("updated: ", updated)
    + Section("deleted: ", deleted)
    + Counts(|untouched|, |generated|, |updated|, |deleted|)
    + ErrorBlock(errors)
  }
}
