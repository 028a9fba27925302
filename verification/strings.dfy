/**
 * The parts of Python's `str` and `re` behaviour that the ingestion code relies on:
 * the character classes `\w` and whitespace, `str.strip`, `str.splitlines`,
 * `str.join`, and substring search.
 */
module Strings {
  import opened Wrappers

  /** `\w` in a `str` pattern, restricted to ASCII: letters, digits and underscore. */
  predicate IsWordChar(c: char) {
    ('a' <= c <= 'z') || ('A' <= c <= 'Z') || ('0' <= c <= '9') || c == '_'
  }

  /** `str.isspace()`: the characters `str.strip()` removes when given no argument. */
  predicate IsSpace(c: char) {
    var n := c as int;
    (9 <= n <= 13) || (28 <= n <= 32) || n == 0x85 || n == 0xA0 || n == 0x1680
    || (0x2000 <= n <= 0x200A) || n == 0x2028 || n == 0x2029 || n == 0x202F
    || n == 0x205F || n == 0x3000
  }

  /** The line boundaries recognised by `str.splitlines()` (`\r\n` counts as one). */
  predicate IsLineBreak(c: char) {
    var n := c as int;
    (10 <= n <= 13) || (28 <= n <= 30) || n == 0x85 || n == 0x2028 || n == 0x2029
  }

  predicate NoLineBreak(s: string) {
    forall k :: 0 <= k < |s| ==> !IsLineBreak(s[k])
  }

  /** Index of the first character of `s` satisfying `p`, or `|s|` when there is none. */
  function FirstWhere(s: string, p: char -> bool): (i: nat)
    ensures i <= |s|
    ensures i < |s| ==> p(s[i])
    ensures forall k :: 0 <= k < i ==> !p(s[k])
  {
    if s == [] then 0
    else if p(s[0]) then 0
    else 1 + FirstWhere(s[1..], p)
  }

  /** `s` without its longest prefix of characters satisfying `p`. */
  function TrimStart(s: string, p: char -> bool): (r: string)
    ensures |r| <= |s| && r == s[|s| - |r|..]
    ensures forall k :: 0 <= k < |s| - |r| ==> p(s[k])
    ensures r != [] ==> !p(r[0])
  {
    s[FirstWhere(s, c => !p(c))..]
  }

  /** `s` without its longest suffix of characters satisfying `p`. */
  function TrimEnd(s: string, p: char -> bool): (r: string)
    ensures |r| <= |s| && r == s[..|r|]
    ensures forall k :: |r| <= k < |s| ==> p(s[k])
    ensures r != [] ==> !p(r[|r| - 1])
  {
    if s == [] || !p(s[|s| - 1]) then s
    else TrimEnd(s[..|s| - 1], p)
  }

  /** `s.strip(chars)` where `chars` is the set described by `p`. */
  function Trim(s: string, p: char -> bool): (r: string)
    ensures r != [] ==> !p(r[0]) && !p(r[|r| - 1])
    ensures |TrimStart(s, p)| >= |r| && r == s[|s| - |TrimStart(s, p)|..|s| - |TrimStart(s, p)| + |r|]
  {
    TrimEnd(TrimStart(s, p), p)
  }

  /** `Trim(s, p)` is a slice of `s` whose surroundings consist of trimmed characters only. */
  lemma TrimSlice(s: string, p: char -> bool) returns (i: nat)
    ensures i + |Trim(s, p)| <= |s|
    ensures s == s[..i] + Trim(s, p) + s[i + |Trim(s, p)|..]
    ensures forall k :: 0 <= k < i ==> p(s[k])
    ensures forall k :: i + |Trim(s, p)| <= k < |s| ==> p(s[k])
  {
    var t := TrimStart(s, p);
    var r := Trim(s, p);
    i := |s| - |t|;
    assert t == s[i..];
    assert r == t[..|r|];
    assert s[i..] == r + s[i + |r|..];
    forall k | i + |r| <= k < |s| ensures p(s[k]) {
      assert s[k] == t[k - i];
    }
  }

  /** Trimming never introduces a character. */
  lemma TrimSubset(s: string, p: char -> bool, c: char)
    requires c !in s
    ensures c !in Trim(s, p)
  {
  }

  /** Trimming a string that neither starts nor ends with a trimmed character changes nothing. */
  lemma TrimNoop(s: string, p: char -> bool)
    requires s != [] ==> !p(s[0]) && !p(s[|s| - 1])
    ensures Trim(s, p) == s
  {
    var t := TrimStart(s, p);
    assert t == s;
  }

  /** Python's `s.strip()`. */
  function Strip(s: string): (r: string)
    ensures |r| <= |s|
    ensures r != [] ==> !IsSpace(r[0]) && !IsSpace(r[|r| - 1])
  {
    Trim(s, IsSpace)
  }

  /** The characters of `s` satisfying `p`, in order. */
  function Filter(s: string, p: char -> bool): (r: string)
    ensures |r| <= |s|
    ensures forall k :: 0 <= k < |r| ==> p(r[k])
  {
    if s == [] then []
    else (if p(s[0]) then [s[0]] else []) + Filter(s[1..], p)
  }

  lemma {:induction false} FilterConcat(a: string, b: string, p: char -> bool)
    ensures Filter(a + b, p) == Filter(a, p) + Filter(b, p)
  {
    if a != [] {
      assert (a + b)[1..] == a[1..] + b;
      FilterConcat(a[1..], b, p);
    } else {
      assert a + b == b;
    }
  }

  /** Filtering leaves nothing exactly when no character satisfies `p`. */
  lemma {:induction false} FilterEmpty(s: string, p: char -> bool)
    ensures Filter(s, p) == [] <==> forall k :: 0 <= k < |s| ==> !p(s[k])
  {
    if s != [] {
      FilterEmpty(s[1..], p);
      forall k | 1 <= k < |s| ensures s[k] == s[1..][k - 1] { }
    }
  }

  /**
   * `sep.join(parts)`: empty for no parts; otherwise, with one more `sep` after it,
   * every part followed by `sep`, in order.
   */
  function Join(parts: seq<string>, sep: string): (r: string)
    ensures parts == [] ==> r == ""
    ensures parts != [] ==> r + sep == TerminatedBy(parts, sep)
  {
    if |parts| == 0 then ""
    else if |parts| == 1 then parts[0]
    else parts[0] + sep + Join(parts[1..], sep)
  }

  /** Each part followed by `sep`, concatenated. */
  function TerminatedBy(parts: seq<string>, sep: string): string {
    if parts == [] then "" else parts[0] + sep + TerminatedBy(parts[1..], sep)
  }

  /** A join begins with its first part. */
  lemma JoinStartsWith(parts: seq<string>, sep: string)
    ensures parts != [] ==> parts[0] <= Join(parts, sep)
  {
    if |parts| > 1 {
      assert Join(parts, sep) == parts[0] + (sep + Join(parts[1..], sep));
    }
  }

  /** `pat` occurs in `s` starting at index `i`. */
  predicate OccursAt(s: string, pat: string, i: int) {
    0 <= i && i + |pat| <= |s| && s[i..i + |pat|] == pat
  }

  /** The first index at or after `from` where `pat` occurs in `s`, as `s.find(pat, from)` does. */
  function FindFrom(s: string, pat: string, from: nat): (r: Option<nat>)
    decreases |s| - from
    ensures r.Some? ==> from <= r.value && OccursAt(s, pat, r.value)
    ensures r.Some? ==> forall k :: from <= k < r.value ==> !OccursAt(s, pat, k)
    ensures r.None? ==> forall k :: from <= k ==> !OccursAt(s, pat, k)
  {
    if from + |pat| > |s| then None
    else if s[from..from + |pat|] == pat then Some(from)
    else FindFrom(s, pat, from + 1)
  }

  /** `s.splitlines()`: the lines of `s` without their line boundaries; a final boundary opens no new line. */
  function SplitLines(s: string): (r: seq<string>)
    decreases |s|
    ensures forall k :: 0 <= k < |r| ==> NoLineBreak(r[k])
  {
    if s == [] then []
    else
      var i := FirstWhere(s, IsLineBreak);
      if i == |s| then [s]
      else
        var next := if s[i] == '\r' && i + 1 < |s| && s[i + 1] == '\n' then i + 2 else i + 1;
        [s[..i]] + SplitLines(s[next..])
  }

  /** The line boundaries `splitlines` consumes between two lines: one boundary character, or `\r\n`. */
  predicate IsSeparator(sep: string) {
    sep == "\r\n" || (|sep| == 1 && IsLineBreak(sep[0]))
  }

  /** A last line without a terminating boundary is returned as it is. */
  lemma SplitLinesLast(l: string)
    requires l != [] && NoLineBreak(l)
    ensures SplitLines(l) == [l]
  {
    assert FirstWhere(l, IsLineBreak) == |l|;
  }

  /**
   * `splitlines` takes off the first line and the separator that ends it: any one
   * boundary character, or `\r\n` as a whole (a lone `\r` when no `\n` follows).
   */
  lemma SplitLinesStep(l: string, sep: string, s: string)
    requires NoLineBreak(l) && IsSeparator(sep)
    requires sep == "\r" ==> s == [] || s[0] != '\n'
    ensures SplitLines(l + sep + s) == [l] + SplitLines(s)
  {
    var t := l + sep + s;
    assert t[|l|] == sep[0];
    assert forall k :: 0 <= k < |l| ==> t[k] == l[k];
    var i := FirstWhere(t, IsLineBreak);
    assert i == |l|;
    assert t[..i] == l;
    if |sep| == 2 {
      assert t[i] == '\r' && t[i + 1] == '\n';
      assert t[i + 2..] == s;
    } else {
      assert t[i + 1..] == s;
    }
  }

  /** Each line followed by `"\n"`, concatenated: the text `SplitLines` takes apart. */
  function Terminated(lines: seq<string>): string {
    TerminatedBy(lines, "\n")
  }

  /** Splitting newline-terminated lines that contain no boundary gives those lines back. */
  lemma {:induction false} SplitLinesTerminated(lines: seq<string>)
    requires forall k :: 0 <= k < |lines| ==> NoLineBreak(lines[k])
    ensures SplitLines(Terminated(lines)) == lines
  {
    if lines != [] {
      var nl := "\n";
      assert IsSeparator(nl) by {
        assert |nl| == 1 && nl[0] == '\n';
      }
      var rest := lines[1..];
      assert Terminated(lines) == lines[0] + nl + Terminated(rest);
      assert forall k :: 0 <= k < |rest| ==> rest[k] == lines[k + 1];
      SplitLinesStep(lines[0], nl, Terminated(rest));
      SplitLinesTerminated(rest);
    }
  }

  /** Adding a line at the end adds that line and its newline at the end. */
  lemma {:induction false} TerminatedSnoc(lines: seq<string>, l: string)
    ensures Terminated(lines + [l]) == Terminated(lines) + (l + "\n")
  {
    if lines == [] {
      assert lines + [l] == [l];
    } else {
      assert (lines + [l])[1..] == lines[1..] + [l];
      TerminatedSnoc(lines[1..], l);
    }
  }

  /** Joining two texts without line boundaries gives one without. */
  lemma NoLineBreakConcat(a: string, b: string)
    requires NoLineBreak(a) && NoLineBreak(b)
    ensures NoLineBreak(a + b)
  {
    assert forall k :: |a| <= k < |a + b| ==> (a + b)[k] == b[k - |a|];
  }

  /** Stripping keeps a text free of line boundaries. */
  lemma StripNoLineBreak(s: string)
    requires NoLineBreak(s)
    ensures NoLineBreak(Strip(s))
  {
    var t := Trim(s, IsSpace);
    var a := |s| - |TrimStart(s, IsSpace)|;
    assert t == s[a..a + |t|];
    forall k | 0 <= k < |t| ensures !IsLineBreak(t[k]) {
      assert t[k] == s[a + k];
    }
  }
}
