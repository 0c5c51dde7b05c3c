/**
 * The string helpers of StringUtils.h: trimming, pattern replacement,
 * splitting on a delimiter, and the prefix/suffix tests, on `string`
 * (`seq<char>`) with the search semantics of std::basic_string::find.
 */
module StringUtils {
  import opened Wrappers

  /** `p` occurs in `s` starting at index `i`. */
  predicate OccursAt(s: string, p: string, i: nat) {
    i + |p| <= |s| && s[i..i + |p|] == p
  }

  predicate IsPrefix(p: string, s: string) {
    |p| <= |s| && s[..|p|] == p
  }

  predicate IsSuffix(p: string, s: string) {
    |p| <= |s| && s[|s| - |p|..] == p
  }

  /** `p` occurs somewhere in `s` (the empty pattern occurs in every string). */
  ghost predicate Occurs(s: string, p: string) {
    exists i: nat :: OccursAt(s, p, i)
  }

  /** std::basic_string::find(p, from): the first index at or after `from` where `p` occurs. */
  function FindFrom(s: string, p: string, from: nat): (r: Option<nat>)
    decreases |s| - from
    ensures r.Some? ==> from <= r.value && OccursAt(s, p, r.value)
    ensures r.Some? ==> forall j: nat :: from <= j < r.value ==> !OccursAt(s, p, j)
    ensures r.None? ==> forall j: nat :: from <= j ==> !OccursAt(s, p, j)
  {
    if from + |p| > |s| then None
    else if s[from..from + |p|] == p then Some(from)
    else FindFrom(s, p, from + 1)
  }

  /** std::basic_string::find(p): the first index where `p` occurs, None standing for npos. */
  function Find(s: string, p: string): (r: Option<nat>)
    ensures r.Some? <==> Occurs(s, p)
    ensures r.Some? ==> OccursAt(s, p, r.value)
    ensures r.Some? ==> forall j: nat :: j < r.value ==> !OccursAt(s, p, j)
  {
    FindFrom(s, p, 0)
  }

  /** std::basic_string::find(c): the first index holding `c`. */
  function IndexOf(s: string, c: char): (r: Option<nat>)
    ensures r.Some? ==> r.value < |s| && s[r.value] == c && c !in s[..r.value]
    ensures r.None? <==> c !in s
  {
    if s == [] then None
    else if s[0] == c then Some(0)
    else match IndexOf(s[1..], c)
      case None => None
      case Some(i) =>
        assert s[..i + 1] == [s[0]] + s[1..][..i];
        Some(i + 1)
  }

  /** The last index below `n` holding `c`. */
  function LastIndexBelow(s: string, c: char, n: nat): (r: Option<nat>)
    requires n <= |s|
    ensures r.Some? ==> r.value < n && s[r.value] == c
    ensures forall j :: 0 <= j < n && (r.None? || r.value < j) ==> s[j] != c
  {
    if n == 0 then None
    else if s[n - 1] == c then Some(n - 1)
    else LastIndexBelow(s, c, n - 1)
  }

  /**
   * std::basic_string::rfind(c, pos): the last index not after `pos` holding `c`;
   * `pos == None` stands for npos, that is, the whole string is searched.
   */
  function RFind(s: string, c: char, pos: Option<nat>): (r: Option<nat>)
    ensures r.Some? ==> r.value < |s| && s[r.value] == c && (pos.Some? ==> r.value <= pos.value)
    ensures forall j :: 0 <= j < |s| && (pos.None? || j <= pos.value) && (r.None? || r.value < j) ==> s[j] != c
  {
    LastIndexBelow(s, c, if pos.Some? && pos.value < |s| then pos.value + 1 else |s|)
  }

  /** `beginsWith`: the first occurrence of `pattern` is at index 0. */
  function BeginsWith(str: string, pattern: string): (r: bool)
    ensures r <==> IsPrefix(pattern, str)
  {
    Find(str, pattern) == Some(0)
  }

  /**
   * `endsWith`: the FIRST occurrence of `pattern` lies at the end of `str`.
   * This is stronger than having `pattern` as a suffix: an earlier occurrence
   * makes the test fail. The unsigned subtraction of the source cannot wrap,
   * because a pattern that was found is never longer than `str`.
   */
  function EndsWith(str: string, pattern: string): (r: bool)
    ensures r ==> IsSuffix(pattern, str)
    ensures r <==> IsSuffix(pattern, str) && forall j: nat :: j < |str| - |pattern| ==> !OccursAt(str, pattern, j)
  {
    match Find(str, pattern)
    case None =>
      assert IsSuffix(pattern, str) ==> OccursAt(str, pattern, |str| - |pattern|);
      false
    case Some(pos) => pos == |str| - |pattern|
  }

  /** `p` occurs in `s`, as `s.find(p) != npos` tests it. */
  predicate Contains(s: string, p: string) {
    Find(s, p).Some?
  }

  /** A pattern longer than the string is never found, so the test fails. */
  lemma EndsWithLongerPattern(str: string, pattern: string)
    requires |pattern| > |str|
    ensures !EndsWith(str, pattern)
  {
  }

  /** A pattern that does not occur fails the test. */
  lemma EndsWithAbsentPattern(str: string, pattern: string)
    requires !Contains(str, pattern)
    ensures !EndsWith(str, pattern)
  {
  }

  /** The empty pattern is found at index 0, which is the end only of the empty string. */
  lemma EndsWithEmptyPattern(str: string)
    ensures EndsWith(str, "") <==> str == ""
  {
    assert OccursAt(str, "", 0);
  }

  /** A suffix that also occurs earlier is not reported: "a.hx.h" does not end with ".h" for this test. */
  lemma EndsWithIsNotSuffixTest()
    ensures IsSuffix(".h", "a.hx.h") && !EndsWith("a.hx.h", ".h")
  {
    assert "a.hx.h"[1..3] == ".h";
    assert OccursAt("a.hx.h", ".h", 1);
    assert "a.hx.h"[4..] == ".h";
  }

  /** `isspace` in the "C" locale. */
  predicate IsSpace(c: char) {
    c == ' ' || c == '\t' || c == '\n' || c == '\U{B}' || c == '\U{C}' || c == '\r'
  }

  predicate AllSpace(s: string) {
    forall i :: 0 <= i < |s| ==> IsSpace(s[i])
  }

  /** `ltrim`: drops the leading white space, and only that. */
  function LTrim(s: string): (r: string)
    ensures IsSuffix(r, s)
    ensures AllSpace(s[..|s| - |r|])
    ensures r == [] || !IsSpace(r[0])
  {
    if s != [] && IsSpace(s[0]) then
      var r := LTrim(s[1..]);
      assert s[..|s| - |r|] == [s[0]] + s[1..][..|s[1..]| - |r|];
      r
    else s
  }

  /** `rtrim`: drops the trailing white space, and only that. */
  function RTrim(s: string): (r: string)
    ensures IsPrefix(r, s)
    ensures AllSpace(s[|r|..])
    ensures r == [] || !IsSpace(r[|r| - 1])
  {
    if s != [] && IsSpace(s[|s| - 1]) then
      var r := RTrim(s[..|s| - 1]);
      assert s[|r|..] == s[..|s| - 1][|r|..] + [s[|s| - 1]];
      r
    else s
  }

  /** `r` is the piece of `s` at `i`, with only white space before and after it. */
  predicate SpaceFramed(s: string, r: string, i: nat) {
    i + |r| <= |s| && s[i..i + |r|] == r && AllSpace(s[..i]) && AllSpace(s[i + |r|..])
  }

  /** `trim`: a contiguous piece of `s` with white space removed from both ends. */
  function Trim(s: string): (r: string)
    ensures r == [] || (!IsSpace(r[0]) && !IsSpace(r[|r| - 1]))
    ensures exists i: nat :: SpaceFramed(s, r, i)
  {
    var t := RTrim(s);
    var r := LTrim(t);
    TrimParts(s, t, r);
    assert r != [] ==> r[|r| - 1] == t[|t| - 1];
    r
  }

  /** A suffix `r` of a prefix `t` of `s`, cut off only white space on both sides, sits in `s` between white space. */
  lemma TrimParts(s: string, t: string, r: string)
    requires IsPrefix(t, s) && AllSpace(s[|t|..]) && IsSuffix(r, t) && AllSpace(t[..|t| - |r|])
    ensures SpaceFramed(s, r, |t| - |r|)
  {
    var i := |t| - |r|;
    assert t == s[..|t|] && r == t[i..];
    assert s[..i] == t[..i];
    assert s[i + |r|..] == s[|t|..];
  }

  lemma {:induction false} LTrimKeepsClean(s: string)
    requires s == [] || !IsSpace(s[0])
    ensures LTrim(s) == s
  {
  }

  lemma {:induction false} RTrimKeepsClean(s: string)
    requires s == [] || !IsSpace(s[|s| - 1])
    ensures RTrim(s) == s
  {
  }

  /** Trimming twice is the same as trimming once. */
  lemma TrimIdempotent(s: string)
    ensures Trim(Trim(s)) == Trim(s)
  {
    var t := Trim(s);
    RTrimKeepsClean(t);
    LTrimKeepsClean(t);
  }

  /**
   * `split` over getline: the pieces between delimiters, in order. Interior
   * empty pieces are kept, but getline reports nothing once the stream is
   * exhausted, so a final empty piece is dropped and the empty string has none.
   */
  function Split(s: string, delim: char): (r: seq<string>)
    ensures forall i :: 0 <= i < |r| ==> delim !in r[i]
    ensures |s| > 0 <==> |r| > 0
    decreases |s|
  {
    if s == [] then []
    else match IndexOf(s, delim)
      case None => [s]
      case Some(i) => [s[..i]] + Split(s[i + 1..], delim)
  }

  /** The pieces glued back together with the delimiter between consecutive ones. */
  function Join(pieces: seq<string>, delim: char): string
  {
    if pieces == [] then []
    else if |pieces| == 1 then pieces[0]
    else pieces[0] + [delim] + Join(pieces[1..], delim)
  }

  /** Joining the pieces gives back `s`, minus one trailing delimiter if `s` had one. */
  lemma {:induction false} SplitJoin(s: string, delim: char)
    ensures |s| > 0 && s[|s| - 1] == delim ==> Join(Split(s, delim), delim) + [delim] == s
    ensures !(|s| > 0 && s[|s| - 1] == delim) ==> Join(Split(s, delim), delim) == s
    decreases |s|
  {
    if s != [] {
      match IndexOf(s, delim)
      case None =>
        assert Split(s, delim) == [s];
      case Some(i) =>
        SplitJoinAt(s, delim, i);
    }
  }

  /** The inductive step of SplitJoin, at the first delimiter `i`. */
  lemma {:induction false} SplitJoinAt(s: string, delim: char, i: nat)
    requires s != [] && IndexOf(s, delim) == Some(i)
    ensures s[|s| - 1] == delim ==> Join(Split(s, delim), delim) + [delim] == s
    ensures s[|s| - 1] != delim ==> Join(Split(s, delim), delim) == s
    decreases |s|, 0
  {
    var t := s[i + 1..];
    var p := s[..i];
    assert s == p + [delim] + t;
    if t == [] {
      assert Join(Split(s, delim), delim) == p by {
        SplitStep(s, delim, i);
        assert Split(s, delim) == [p];
      }
    } else {
      assert Join(Split(s, delim), delim) == p + [delim] + Join(Split(t, delim), delim) by {
        SplitStep(s, delim, i);
        JoinStep(p, Split(t, delim), delim);
      }
      SplitJoin(t, delim);
      Glue(p, t, Join(Split(t, delim), delim), delim);
    }
  }

  /** Putting a piece and a delimiter in front of a joined tail keeps the trailing-delimiter rule. */
  lemma Glue(p: string, t: string, j: string, delim: char)
    requires t != []
    requires t[|t| - 1] == delim ==> j + [delim] == t
    requires t[|t| - 1] != delim ==> j == t
    ensures var s := p + [delim] + t;
      && (s[|s| - 1] == delim ==> p + [delim] + j + [delim] == s)
      && (s[|s| - 1] != delim ==> p + [delim] + j == s)
  {
    var s := p + [delim] + t;
    assert s[|s| - 1] == t[|t| - 1];
    assert p + [delim] + j + [delim] == p + [delim] + (j + [delim]);
  }

  lemma SplitStep(s: string, delim: char, i: nat)
    requires s != [] && IndexOf(s, delim) == Some(i)
    ensures Split(s, delim) == [s[..i]] + Split(s[i + 1..], delim)
  {
  }

  lemma JoinStep(piece: string, pieces: seq<string>, delim: char)
    requires pieces != []
    ensures Join([piece] + pieces, delim) == piece + [delim] + Join(pieces, delim)
  {
    assert ([piece] + pieces)[1..] == pieces;
  }

  lemma SplitExamples()
    ensures Split("a::b", ':') == ["a", "", "b"]
    ensures Split("a:", ':') == ["a"]
    ensures Split(":", ':') == [""]
    ensures Split("", ':') == []
  {
    assert "a::b"[..1] == "a";
    assert IndexOf("a::b", ':') == Some(1);
    assert IndexOf(":b", ':') == Some(0);
    assert IndexOf("b", ':') == None;
    assert "a::b"[2..] == ":b" && ":b"[1..] == "b";
    assert Split(":b", ':') == [""] + Split("b", ':') == ["", "b"];
    assert Split("a::b", ':') == ["a"] + Split(":b", ':');
    assert "a:"[..1] == "a" && "a:"[2..] == "";
    assert IndexOf("a:", ':') == Some(1);
  }

  /**
   * `replace`: replaces the first occurrence of `pattern` and searches again from the
   * start, until none is left. The loop need not terminate, so it is given `fuel`
   * rounds: None means the loop was still running when the fuel ran out.
   */
  function ReplaceAll(s: string, pattern: string, repl: string, fuel: nat): (r: Option<string>)
    ensures r.Some? ==> !Occurs(r.value, pattern)
    ensures r == Some(s) <==> !Occurs(s, pattern)
    decreases fuel
  {
    match Find(s, pattern)
    case None => Some(s)
    case Some(pos) =>
      if fuel == 0 then None
      else ReplaceAll(s[..pos] + repl + s[pos + |pattern|..], pattern, repl, fuel - 1)
  }

  /** One round of the loop: the first occurrence of `pattern`, at `pos`, replaced by `repl`. */
  lemma ReplaceAllStep(s: string, pattern: string, repl: string, fuel: nat, pos: nat)
    requires Find(s, pattern) == Some(pos) && fuel > 0
    ensures pos + |pattern| <= |s| && s[pos..pos + |pattern|] == pattern
    ensures ReplaceAll(s, pattern, repl, fuel) == ReplaceAll(s[..pos] + repl + s[pos + |pattern|..], pattern, repl, fuel - 1)
  {
  }

  /** `t` is as long as `s` after `k` rounds, each swapping `|pattern|` characters for `|repl|`. */
  predicate LengthAfterRounds(s: string, t: string, pattern: string, repl: string, k: nat) {
    |t| == |s| + k * (|repl| - |pattern|)
  }

  /**
   * A result the loop reaches is `s` after `k` rounds of replacement, with at least
   * one round exactly when the pattern occurred, and no more rounds than the fuel.
   */
  lemma {:induction false} ReplaceAllLength(s: string, pattern: string, repl: string, fuel: nat)
    requires ReplaceAll(s, pattern, repl, fuel).Some?
    ensures exists k: nat :: k <= fuel && (k == 0 <==> !Occurs(s, pattern))
                             && LengthAfterRounds(s, ReplaceAll(s, pattern, repl, fuel).value, pattern, repl, k)
    decreases fuel
  {
    var t := ReplaceAll(s, pattern, repl, fuel).value;
    match Find(s, pattern)
    case None =>
      assert LengthAfterRounds(s, t, pattern, repl, 0);
    case Some(pos) =>
      var s' := s[..pos] + repl + s[pos + |pattern|..];
      ReplaceAllStep(s, pattern, repl, fuel, pos);
      ReplaceAllLength(s', pattern, repl, fuel - 1);
      var k: nat :| k <= fuel - 1 && LengthAfterRounds(s', t, pattern, repl, k);
      RoundsStep(s, s', t, pattern, repl, k);
      assert OccursAt(s, pattern, pos);
  }

  /** One more round in front: `s` becomes `s'`, which reaches `t` in `k` rounds. */
  lemma RoundsStep(s: string, s': string, t: string, pattern: string, repl: string, k: nat)
    requires |s'| == |s| + (|repl| - |pattern|) && LengthAfterRounds(s', t, pattern, repl, k)
    ensures LengthAfterRounds(s, t, pattern, repl, k + 1)
  {
    MulSucc(k, |repl| - |pattern|);
  }

  lemma MulSucc(k: nat, d: int)
    ensures (k + 1) * d == k * d + d
  {
  }

  /** When one replacement leaves no occurrence, the result is `s` with its first occurrence swapped for `repl`. */
  lemma ReplaceAllOnce(s: string, pattern: string, repl: string, fuel: nat, pos: nat)
    requires Find(s, pattern) == Some(pos) && fuel > 0
    requires !Occurs(s[..pos] + repl + s[pos + |pattern|..], pattern)
    ensures ReplaceAll(s, pattern, repl, fuel) == Some(s[..pos] + repl + s[pos + |pattern|..])
  {
    ReplaceAllStep(s, pattern, repl, fuel, pos);
  }

  /** Running the loop again on a result it reached changes nothing, whatever the fuel. */
  lemma ReplaceAllIdempotent(s: string, pattern: string, repl: string, fuel: nat, fuel': nat)
    requires ReplaceAll(s, pattern, repl, fuel).Some?
    ensures var t := ReplaceAll(s, pattern, repl, fuel).value; ReplaceAll(t, pattern, repl, fuel') == Some(t)
  {
  }

  /** With a non-empty pattern and a shorter replacement, |s| rounds always suffice. */
  lemma {:induction false} ReplaceAllTerminates(s: string, pattern: string, repl: string, fuel: nat)
    requires 0 < |pattern| && |repl| < |pattern|
    requires |s| <= fuel
    ensures ReplaceAll(s, pattern, repl, fuel).Some?
    decreases fuel
  {
    match Find(s, pattern)
    case None =>
    case Some(pos) =>
      var s' := s[..pos] + repl + s[pos + |pattern|..];
      ReplaceAllStep(s, pattern, repl, fuel, pos);
      assert |s'| < |s|;
      ReplaceAllTerminates(s', pattern, repl, fuel - 1);
  }

  /** With an empty pattern the loop never ends, whatever the fuel. */
  lemma {:induction false} ReplaceAllEmptyPatternDiverges(s: string, repl: string, fuel: nat)
    ensures ReplaceAll(s, "", repl, fuel) == None
    decreases fuel
  {
    assert OccursAt(s, "", 0);
    if fuel > 0 {
      ReplaceAllEmptyPatternDiverges(repl + s, repl, fuel - 1);
      assert s[..0] + repl + s[0..] == repl + s;
    }
  }
}
